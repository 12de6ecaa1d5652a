/** The circular iterator over a descriptor (pb_common.c). */
module PbFieldIter {
  import opened PbMessage

  class FieldIter {
    const fields: seq<Field>
    var pos: nat
    var pData: int
    var pSize: int
    var requiredFieldIndex: nat

    /** Everything is a function of pos, except that the decoder may redirect pSize while it is at an
        array that has no count of its own. */
    ghost predicate Valid()
      reads this
    {
      && UnionsAgree(fields)
      && (if fields == [] then pos == 0 && requiredFieldIndex == 0 else pos < |fields|)
      && (fields != [] ==>
            && pData == Address(fields, pos)
            && requiredFieldIndex == RequiredBefore(fields, pos)
            && (SizeIsOwn() || FixedCount(fields[pos])))
    }

    ghost predicate SizeIsOwn()
      requires fields != [] ==> pos < |fields|
      reads this
    {
      fields != [] ==> pSize == pData + fields[pos].sizeOffset
    }

    constructor (fields: seq<Field>)
      requires UnionsAgree(fields)
      ensures this.fields == fields && Valid() && SizeIsOwn() && pos == 0
    {
      this.fields := fields;
      new;
      var _ := Begin();
    }

    /** The terminator of a descriptor has tag zero. */
    function TagAt(): nat
      requires fields != [] ==> pos < |fields|
      reads this
    {
      if fields == [] then 0 else fields[pos].tag
    }

    /** Its type is zero, which reads as required. */
    function HTypeAt(): HType
      requires fields != [] ==> pos < |fields|
      reads this
    {
      if fields == [] then Required else fields[pos].htype
    }

    method Begin() returns (ok: bool)
      requires UnionsAgree(fields)
      modifies this
      ensures Valid() && SizeIsOwn() && pos == 0
      ensures ok <==> fields != []
    {
      pos := 0;
      requiredFieldIndex := 0;
      if fields != [] {
        pData := fields[0].dataOffset;
        pSize := pData + fields[0].sizeOffset;
      }
      ok := fields != [];
    }

    /** One step on, or back to the beginning. */
    method Next() returns (ok: bool)
      requires Valid()
      modifies this
      ensures Valid() && SizeIsOwn()
      ensures ok <==> old(pos) + 1 < |fields|
      ensures pos == if ok then old(pos) + 1 else 0
    {
      if fields == [] {
        return false;
      }
      var prev := fields[pos];
      pos := pos + 1;
      if pos == |fields| {
        var _ := Begin();
        return false;
      }
      var prevSize := prev.dataSize;
      if prev.htype.OneOf? && fields[pos].htype.OneOf? && fields[pos].dataOffset == PB_SIZE_MAX {
        assert JoinsUnion(fields, pos);
        return true;
      } else if prev.htype.Repeated? {
        prevSize := prevSize * prev.arraySize;
      }
      if prev.htype.Required? {
        requiredFieldIndex := requiredFieldIndex + 1;
      }
      pData := pData + prevSize + fields[pos].dataOffset;
      pSize := pData + fields[pos].sizeOffset;
      return true;
    }

    /** Where a number of steps, at most a full circle, leads. */
    static function Around(n: nat, from: nat, steps: nat): (p: nat)
      requires from < n && steps <= n
      ensures p < n
    {
      if from + steps < n then from + steps else from + steps - n
    }

    /** Searches once round the circle, from wherever it stands, and stops at the first match; without a
        match it is back where it was. */
    method Find(tag: nat) returns (found: bool)
      requires Valid() && fields != []
      modifies this
      ensures Valid()
      ensures found <==> exists i :: 0 <= i < |fields| && fields[i].tag == tag
      ensures found ==> fields[pos].tag == tag
      ensures found ==> exists d: nat :: d < |fields| && pos == Around(|fields|, old(pos), d)
                                   && forall k :: 0 <= k < d ==> fields[Around(|fields|, old(pos), k)].tag != tag
      ensures !found ==> pos == old(pos)
      ensures SizeIsOwn() || (pos == old(pos) && pSize == old(pSize))
    {
      var start := pos;
      ghost var d: nat := 0;
      while true
        invariant Valid() && d < |fields| && start == old(pos) < |fields|
        invariant pos == Around(|fields|, start, d)
        invariant forall k :: 0 <= k < d ==> fields[Around(|fields|, start, k)].tag != tag
        invariant SizeIsOwn() || (pos == old(pos) && pSize == old(pSize))
        decreases |fields| - d
      {
        if TagAt() == tag {
          return true;
        }
        var _ := Next();
        d := d + 1;
        if pos == start {
          break;
        }
      }
      forall i | 0 <= i < |fields| ensures fields[i].tag != tag {
        AroundReaches(|fields|, start, i);
      }
      return false;
    }
  }

  lemma AroundReaches(n: nat, from: nat, i: nat)
    requires from < n && i < n
    ensures exists k: nat :: k < n && FieldIter.Around(n, from, k) == i
  {
    var k: nat := if i >= from then i - from else i + n - from;
    assert FieldIter.Around(n, from, k) == i;
  }
}
