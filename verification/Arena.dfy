/** A request held in one allocation, with its headers and body as slices of it. */
module Arena {
  import opened Bytes

  /** The pointers become offsets into `data`; `Valid` is what every constructor call guarantees. */
  datatype ArenaBody = ArenaBody(data: seq<Byte>, headerEnd: nat, bodyStart: nat)
  {
    predicate Valid() {
      headerEnd <= |data| && bodyStart <= |data|
    }

    function GetBodyBytes(): seq<Byte>
      requires Valid()
    {
      data[bodyStart..]
    }
  }
}
