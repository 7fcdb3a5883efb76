/**
 * The transactional memory of txmem.py: committed storage as an unsigned
 * 16-bit array, and a journal of pending writes that reads see, commit
 * publishes and rollback discards.
 */
module TxMem {
  import opened Words
  import opened Wrappers
  import opened Journal

  class TransactionalMemory {
    /** Committed storage (`array('H')`); its size never changes. */
    const mem: array<U16>
    /** The journal, oldest entry first. */
    var journal: seq<Entry>

    ghost predicate Valid()
      reads this
    {
      InBounds(mem.Length, journal)
    }

    /** Storage of `size` zero words, nothing journaled. */
    constructor(size: nat)
      ensures Valid() && fresh(mem)
      ensures mem[..] == seq(size, _ => 0) && journal == []
    {
      mem := new U16[size](_ => 0);
      journal := [];
    }

    /**
     * `__setitem__`: journal a write, recording the committed value it
     * replaces. A location outside storage or a missing value raises
     * ValueError and journals nothing. Storage itself is untouched.
     */
    method Write(location: int, value: Option<int>) returns (r: Option<TxError>)
      requires Valid()
      modifies this
      ensures Valid() && unchanged(mem)
      ensures r.Some? <==> !(0 <= location < mem.Length) || value.None?
      ensures r.Some? ==> r == Some(ValueError) && journal == old(journal)
      ensures r.None? ==> journal == old(journal) + [Entry(location, mem[location], value.value)]
      ensures Snapshots(mem[..], old(journal)) ==> Snapshots(mem[..], journal)
    {
      if location < 0 || location >= mem.Length {
        return Some(ValueError);
      }
      if value.None? {
        return Some(ValueError);
      }
      journal := journal + [Entry(location, mem[location], value.value)];
      r := None;
    }

    /** `__getitem__`: scan the whole journal keeping the last match, else read committed storage. */
    method Read(location: int) returns (r: Result<int>)
      ensures r == View(mem[..], journal, location)
    {
      var value: Option<int> := None;
      var i := 0;
      while i < |journal|
        invariant 0 <= i <= |journal|
        invariant value == LastWrite(journal[..i], location)
      {
        if location == journal[i].location {
          value := Some(journal[i].value);
        }
        assert journal[..i + 1][..i] == journal[..i];
        i := i + 1;
      }
      assert journal[..|journal|] == journal;
      if value.Some? {
        return Ok(value.value);
      }
      r := CommittedAt(mem[..], location);
    }

    /** `has_updates`: without journal entries, every read sees committed storage. */
    function HasUpdates(): (r: bool)
      reads this, mem
      ensures r <==> journal != []
      ensures !r ==> forall loc :: View(mem[..], journal, loc) == CommittedAt(mem[..], loc)
    {
      |journal| != 0
    }

    /** `rollback`: write every snapshot back in journal order, then empty the journal. */
    method Rollback()
      requires Valid()
      modifies this, mem
      ensures Valid()
      ensures mem[..] == Restore(old(mem[..]), old(journal)) && journal == []
    {
      var i := 0;
      while i < |journal|
        invariant 0 <= i <= |journal| && journal == old(journal)
        invariant InBounds(mem.Length, journal[i..])
        invariant Restore(mem[..], journal[i..]) == Restore(old(mem[..]), journal)
      {
        var e := journal[i];
        assert journal[i..][0] == e && journal[i..][1..] == journal[i + 1..];
        mem[e.location] := e.snapshot;
        i := i + 1;
      }
      journal := [];
    }

    /**
     * `commit`, with its handlers working as evidently intended: apply
     * entries in order; a snapshot that no longer matches storage raises
     * FatalTransactionError leaving earlier entries applied and the journal
     * kept; a value that does not fit a slot rolls back and raises
     * OverflowError; success empties the journal.
     */
    method Commit() returns (r: Option<TxError>)
      requires Valid()
      modifies this, mem
      ensures Valid()
      ensures Committed(mem[..], journal, r) == Journal.Commit(old(mem[..]), old(journal))
    {
      var i := 0;
      while i < |journal|
        invariant 0 <= i <= |journal| && journal == old(journal)
        invariant InBounds(mem.Length, journal[i..])
        invariant Apply(mem[..], journal[i..]) == Apply(old(mem[..]), journal)
      {
        var e := journal[i];
        assert journal[i..][0] == e && journal[i..][1..] == journal[i + 1..];
        if mem[e.location] != e.snapshot {
          return Some(FatalTransactionError);
        }
        if !Fits(e.value) {
          Rollback();
          return Some(OverflowError);
        }
        mem[e.location] := e.value;
        i := i + 1;
      }
      journal := [];
      r := None;
    }
  }
}
