/** The field iterator (nanopb: pb_common.c). Places in the C struct are counted in
    members instead of bytes. */
module PbIterator {
  import opened PbFormat

  class FieldIter {
    const message: Descriptor
    var pos: nat
    var place: nat
    var requiredIndex: nat

    /** Where `pos` stands decides the rest. At the terminator of an empty message `pos` is 0. */
    ghost predicate Valid()
      reads this
    {
      && (pos < |message.fields| || (pos == 0 && |message.fields| == 0))
      && (pos < |message.fields| ==> place == SlotOf(message, pos) && requiredIndex == RequiredBefore(message, pos))
    }

    /** pb_field_iter_begin */
    constructor (d: Descriptor)
      ensures Valid() && message == d && pos == 0
    {
      message, pos, place, requiredIndex := d, 0, 0, 0;
    }

    /** pb_field_iter_next; after the last field the iterator is back at the first. */
    method Next() returns (more: bool)
      requires Valid()
      modifies this
      ensures Valid()
      ensures more == (old(pos) + 1 < |message.fields|)
      ensures pos == if more then old(pos) + 1 else 0
    {
      if |message.fields| == 0 {
        return false;
      }
      var previous := message.fields[pos];
      pos := pos + 1;
      if pos == |message.fields| {
        pos, place, requiredIndex := 0, 0, 0;
        return false;
      }
      var field := message.fields[pos];
      if previous.htype.Oneof? && field.htype.Oneof? && field.joins {
        return true;
      }
      if previous.htype.Required? {
        requiredIndex := requiredIndex + 1;
      }
      place := place + 1;
      return true;
    }

    /** pb_field_iter_find: the search goes on from where the iterator stands and wraps around. */
    method Find(tag: Tag) returns (found: bool)
      requires Valid()
      modifies this
      ensures Valid()
      ensures found <==> exists i :: 0 <= i < |message.fields| && message.fields[i].tag == tag
      ensures found ==> pos < |message.fields| && message.fields[pos].tag == tag
      ensures !found ==> pos == old(pos)
    {
      var start := pos;
      ghost var n := |message.fields|;
      ghost var steps := 0;
      while true
        invariant Valid() && start == old(pos) && steps <= n
        invariant n == |message.fields|
        invariant n > 0 ==> steps < n && pos == if start + steps < n then start + steps else start + steps - n
        invariant forall i :: (start <= i < start + steps && i < n) || 0 <= i < start + steps - n ==>
          message.fields[i].tag != tag
        invariant n == 0 ==> steps == 0
        decreases n - steps
      {
        if pos < |message.fields| && message.fields[pos].tag == tag {
          return true;
        }
        var more := Next();
        steps := steps + 1;
        if pos == start {
          break;
        }
      }
      return false;
    }
  }
}
