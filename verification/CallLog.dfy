/** The bounded audit buffer: newest events win, a drained batch can be put back. */
module CallLog {

  /** The most recent max elements: what the buffer is meant to keep. */
  function Last<E>(events: seq<E>, max: nat): seq<E> {
    if |events| <= max then events else events[|events| - max..]
  }

  lemma LastIsSuffix<E>(events: seq<E>, max: nat)
    ensures |Last(events, max)| <= max
    ensures exists before: seq<E> ::
              events == before + Last(events, max) && (before != [] ==> |Last(events, max)| == max)
  {
    var cut := |events| - |Last(events, max)|;
    assert events == events[..cut] + Last(events, max);
  }

  /** Truncating a front that is later followed by more changes nothing. */
  lemma LastOfLast<E>(front: seq<E>, back: seq<E>, max: nat)
    ensures Last(Last(front, max) + back, max) == Last(front + back, max)
  {
  }

  lemma LastOfBoth<E>(front: seq<E>, back: seq<E>, max: nat)
    ensures Last(Last(front, max) + Last(back, max), max) == Last(front + back, max)
  {
  }

  /** A Go slice: a window on a backing array that several slices may share. */
  datatype Slice<E> = Slice(data: array<E>, start: nat, len: nat) {
    ghost predicate Valid() {
      start + len <= data.Length
    }

    ghost function Contents(): seq<E>
      requires Valid()
      reads data
    {
      data[start..start + len]
    }

    /** Moves every element but the first one place down, in place. */
    method ShiftLeft()
      requires Valid() && 0 < len
      modifies data
      ensures data[start..start + len - 1] == old(data[start + 1..start + len])
    {
      var end := start + len - 1;
      for at := start to end
        invariant forall k :: start <= k < at ==> data[k] == old(data[..])[k + 1]
        invariant forall k :: at <= k < data.Length ==> data[k] == old(data[..])[k]
      {
        data[at] := data[at + 1];
      }
    }

    method CopyTo(target: array<E>, at: nat)
      requires Valid() && target != data && at + len <= target.Length
      modifies target
      ensures target[at..at + len] == Contents()
      ensures target[..at] == old(target[..at])
    {
      for i := 0 to len
        invariant target[at..at + i] == Contents()[..i]
        invariant target[..at] == old(target[..at])
      {
        target[at + i] := data[start + i];
      }
    }
  }

  /** Go's append of a whole slice, always into a new array. */
  method Merge<E(0)>(front: Slice<E>, back: Slice<E>) returns (merged: array<E>)
    requires front.Valid() && back.Valid()
    ensures fresh(merged) && merged[..] == front.Contents() + back.Contents()
  {
    merged := new E[front.len + back.len];
    front.CopyTo(merged, 0);
    back.CopyTo(merged, front.len);
    assert merged[..] == merged[..front.len] + merged[front.len..];
  }

  class CallLog<E(0)> {
    var buf: Slice<E>
    const max: nat
    var signalled: bool

    ghost predicate Valid()
      reads this
    {
      1 <= max && buf.Valid() && buf.len <= max
    }

    ghost function Contents(): seq<E>
      requires Valid()
      reads this, buf.data
    {
      buf.Contents()
    }

    constructor (max: int)
      ensures Valid() && Contents() == [] && !signalled && fresh(buf.data)
      ensures this.max == if max <= 0 then 2000 else max
    {
      this.max := if max <= 0 then 2000 else max;
      signalled := false;
      var none := new E[0];
      buf := Slice(none, 0, 0);
    }

    /** Go's append of one element: in place while the array has room, else in a larger one. */
    method Append(e: E)
      requires Valid() && buf.len < max
      modifies this`buf, buf.data
      ensures Valid() && (buf.data == old(buf.data) || fresh(buf.data))
      ensures Contents() == old(Contents()) + [e]
    {
      if buf.start + buf.len == buf.data.Length {
        var grown := new E[2 * buf.len + 1];
        buf.CopyTo(grown, 0);
        buf := Slice(grown, 0, buf.len);
        assert Contents() == old(Contents());
      }
      buf.data[buf.start + buf.len] := e;
      buf := buf.(len := buf.len + 1);
    }

    method Add(e: E)
      requires Valid()
      modifies this, buf.data
      ensures Valid() && (buf.data == old(buf.data) || fresh(buf.data))
      ensures Contents() == Last(old(Contents()) + [e], max)
      ensures signalled
    {
      hide Last;
      ghost var before := Contents();
      LastOfNext(before, e, max);
      if buf.len >= max {
        buf.ShiftLeft();
        buf := buf.(len := buf.len - 1);
        assert Contents() == before[1..];
      }
      Append(e);
      signalled := true;
    }

    /** Hands the buffered events over; the log keeps no reference to their array. */
    method Drain() returns (out: Slice<E>)
      requires Valid()
      modifies this`buf
      ensures Valid() && Contents() == [] && fresh(buf.data)
      ensures out.Valid() && out.data == old(buf.data) && out.Contents() == old(Contents())
    {
      out := buf;
      var none := new E[0];
      buf := Slice(none, 0, 0);
    }

    /** Puts a drained batch back in front of what was added since. */
    method Requeue(evs: Slice<E>)
      requires Valid() && evs.Valid()
      modifies this`buf
      ensures Valid() && (buf.data == old(buf.data) || fresh(buf.data))
      ensures Contents() == Last(evs.Contents() + old(Contents()), max)
    {
      if evs.len == 0 {
        return;
      }
      hide Last;
      ghost var before := evs.Contents() + Contents();
      var merged := Merge(evs, buf);
      var all := Slice(merged, 0, evs.len + buf.len);
      if all.len > max {
        all := Slice(merged, all.len - max, max);
      }
      LastByIndex(before, max, all.start);
      buf := all;
    }

    /**
     * One round of a shipper: what it drained goes out or comes back, whatever is
     * added meanwhile. Only the low-latency shipper stays silent about an empty batch.
     */
    method ShipRound(during: seq<E>, silentIfEmpty: bool, accepted: bool) returns (batch: Slice<E>, sent: bool)
      requires Valid()
      modifies this, buf.data
      ensures Valid() && batch.Valid() && batch.Contents() == old(Contents())
      ensures sent <==> !silentIfEmpty || old(Contents()) != []
      ensures Contents() == Last(if sent && !accepted then old(Contents()) + during else during, max)
    {
      hide Last;
      batch := Drain();
      sent := !silentIfEmpty || batch.len > 0;
      LastOfFew<E>([], max);
      for i := 0 to |during|
        invariant Valid() && fresh(buf.data) && batch.Contents() == old(Contents())
        invariant Contents() == Last(during[..i], max)
      {
        LastOfLast(during[..i], [during[i]], max);
        assert during[..i + 1] == during[..i] + [during[i]];
        Add(during[i]);
      }
      assert during[..|during|] == during;
      if sent && !accepted {
        LastOfTail(batch.Contents(), during, max);
        Requeue(batch);
      }
    }
  }

  lemma LastOfNext<E>(events: seq<E>, e: E, max: nat)
    requires |events| <= max && 1 <= max
    ensures Last(events + [e], max) == (if |events| == max then events[1..] else events) + [e]
  {
  }

  lemma LastOfFew<E>(events: seq<E>, max: nat)
    requires |events| <= max
    ensures Last(events, max) == events
  {
  }

  lemma LastByIndex<E>(events: seq<E>, max: nat, from: nat)
    requires from == if |events| > max then |events| - max else 0
    ensures Last(events, max) == events[from..from + (if |events| > max then max else |events|)]
  {
  }

  /** Truncating the back first changes nothing either. */
  lemma LastOfTail<E>(front: seq<E>, back: seq<E>, max: nat)
    ensures Last(front + Last(back, max), max) == Last(front + back, max)
  {
  }
}
