/**
 * The journal of the transactional memory (txmem.py) as values: what a read
 * sees, what rollback and commit do to storage, and the properties that the
 * snapshot discipline gives.
 */
module Journal {
  import opened Words
  import opened Wrappers
  import opened PySeq

  /** One journal entry `(location, snapshot, new)`: the committed value at write time, then the value written. */
  datatype Entry = Entry(location: nat, snapshot: U16, value: int)

  /** The exceptions the transactional memory raises. */
  datatype TxError =
    | ValueError             // a write outside storage, or of None
    | IndexError             // reading a committed value outside storage
    | FatalTransactionError  // commit found storage changed under an entry
    | OverflowError          // commit met a value that does not fit an unsigned 16-bit slot
    | NameError              // what the commit handler as written raises instead (see CommitAsWritten)

  /**
   * The outcome of a read. The transactional memory raises its own set of
   * exceptions, separate from the machine's `Faults.Exc`, so it has its own
   * result type.
   */
  datatype Result<T> = Ok(value: T) | Err(error: TxError)

  /** The result of running the commit loop: storage reached, and the failure that stopped it, if any. */
  datatype Applied = Applied(mem: seq<U16>, failure: Option<TxError>)

  /** The state after `commit`: storage, what is left of the journal, and the error raised, if any. */
  datatype Committed = Committed(mem: seq<U16>, journal: seq<Entry>, error: Option<TxError>)

  /** Every entry addresses storage, as `__setitem__` guarantees. */
  predicate InBounds(n: nat, j: seq<Entry>)
  {
    forall i :: 0 <= i < |j| ==> j[i].location < n
  }

  /** Every snapshot still equals storage: nothing outside the journal changed storage since the writes. */
  predicate Snapshots(mem: seq<U16>, j: seq<Entry>)
    requires InBounds(|mem|, j)
  {
    forall i :: 0 <= i < |j| ==> j[i].snapshot == mem[j[i].location]
  }

  /** No two entries share an address. */
  predicate Distinct(j: seq<Entry>)
  {
    forall i, k :: 0 <= i < k < |j| ==> j[i].location != j[k].location
  }

  /** Some entry addresses location k. */
  predicate Touches(j: seq<Entry>, k: int)
  {
    exists i :: 0 <= i < |j| && j[i].location == k
  }

  predicate Fits(v: int)
  {
    0 <= v < 0x1_0000
  }

  /** Entry i is the last one in j that addresses loc. */
  predicate Latest(j: seq<Entry>, loc: int, i: int)
  {
    0 <= i < |j| && j[i].location == loc && forall k :: i < k < |j| ==> j[k].location != loc
  }

  /** The new value of the latest entry for `loc`. */
  function LastWrite(j: seq<Entry>, loc: int): (r: Option<int>)
    ensures r.Some? <==> Touches(j, loc)
    ensures r.Some? ==> exists i :: Latest(j, loc, i) && r.value == j[i].value
  {
    if j == [] then None
    else if j[|j| - 1].location == loc then Some(j[|j| - 1].value)
    else
      var r := LastWrite(j[..|j| - 1], loc);
      assert r.Some? ==> exists i :: Latest(j, loc, i) && r.value == j[i].value;
      assert Touches(j[..|j| - 1], loc) ==> Touches(j, loc);
      assert Touches(j, loc) ==> Touches(j[..|j| - 1], loc);
      r
  }

  /** `get_committed(location)`: storage as Python indexes it, negative positions counting from the end. */
  function CommittedAt(mem: seq<U16>, loc: int): (r: Result<int>)
    ensures 0 <= loc < |mem| ==> r == Ok(mem[loc])
    ensures -|mem| <= loc < 0 ==> r == Ok(mem[loc + |mem|])
    ensures loc >= |mem| || loc < -|mem| ==> r == Err(IndexError)
  {
    match PyIndex(loc, |mem|)
    case None => Err(IndexError)
    case Some(i) => Ok(mem[i])
  }

  /** `__getitem__`: the latest journal entry wins, otherwise the committed value. */
  function View(mem: seq<U16>, j: seq<Entry>, loc: int): (r: Result<int>)
    ensures Touches(j, loc) ==> r.Ok? && exists i :: Latest(j, loc, i) && r.value == j[i].value
    ensures !Touches(j, loc) ==> r == CommittedAt(mem, loc)
  {
    match LastWrite(j, loc)
    case Some(v) => Ok(v)
    case None => CommittedAt(mem, loc)
  }

  /** The loop of `rollback`: every snapshot written back, in journal order. */
  function Restore(mem: seq<U16>, j: seq<Entry>): (r: seq<U16>)
    requires InBounds(|mem|, j)
    ensures |r| == |mem|
    ensures forall k :: 0 <= k < |mem| && !Touches(j, k) ==> r[k] == mem[k]
    decreases |j|
  {
    if j == [] then mem
    else
      assert forall i :: 0 <= i < |j| - 1 ==> j[1..][i] == j[i + 1];
      Restore(mem[j[0].location := j[0].snapshot], j[1..])
  }

  /** The loop of `commit`: check each entry against storage, then apply it; stop at the first failure. */
  function Apply(mem: seq<U16>, j: seq<Entry>): (r: Applied)
    requires InBounds(|mem|, j)
    ensures |r.mem| == |mem|
    ensures r.failure.None? || r.failure == Some(FatalTransactionError) || r.failure == Some(OverflowError)
    ensures r.failure.None? ==> forall i :: 0 <= i < |j| ==> Fits(j[i].value)
    ensures r.failure == Some(OverflowError) ==> exists i :: 0 <= i < |j| && !Fits(j[i].value)
    ensures r.failure == Some(FatalTransactionError) ==> exists i :: 0 <= i < |j| && r.mem[j[i].location] != j[i].snapshot
    decreases |j|
  {
    if j == [] then Applied(mem, None)
    else if mem[j[0].location] != j[0].snapshot then Applied(mem, Some(FatalTransactionError))
    else if !Fits(j[0].value) then Applied(mem, Some(OverflowError))
    else
      assert forall i :: 0 <= i < |j| - 1 ==> j[1..][i] == j[i + 1];
      Apply(mem[j[0].location := j[0].value], j[1..])
  }

  /**
   * `commit` as its handlers are evidently meant to work: a snapshot mismatch
   * raises FatalTransactionError with the earlier entries applied and the
   * journal kept; any other failure rolls back and re-raises.
   */
  function Commit(mem: seq<U16>, j: seq<Entry>): (r: Committed)
    requires InBounds(|mem|, j)
    ensures r.error.None? || r.error == Some(FatalTransactionError) || r.error == Some(OverflowError)
    ensures r.journal == if r.error == Some(FatalTransactionError) then j else []
  {
    var a := Apply(mem, j);
    match a.failure
    case None => Committed(a.mem, [], None)
    case Some(e) =>
      if e == FatalTransactionError then Committed(a.mem, j, Some(e))
      else Committed(Restore(a.mem, j), [], Some(e))
  }

  /**
   * `commit` as written: its first handler names a class that does not exist
   * (the class is declared `FataTransactionError`), so any exception in the
   * loop turns into NameError there, and the rollback handler is never reached.
   */
  function CommitAsWritten(mem: seq<U16>, j: seq<Entry>): (r: Committed)
    requires InBounds(|mem|, j)
    ensures r.error.None? || r.error == Some(NameError)
    ensures r.journal == if r.error.None? then [] else j
  {
    var a := Apply(mem, j);
    if a.failure.None? then Committed(a.mem, [], None)
    else Committed(a.mem, j, Some(NameError))
  }

  /** Appending an entry makes reads of its address see the new value; other addresses read as before. */
  lemma ViewAfterWrite(mem: seq<U16>, j: seq<Entry>, e: Entry, k: int)
    ensures View(mem, j + [e], k) == if k == e.location then Ok(e.value) else View(mem, j, k)
  {
    assert (j + [e])[..|j|] == j;
  }

  /** Two writes to one address: a read sees the second. */
  lemma LastWriteWins(mem: seq<U16>, j: seq<Entry>, loc: nat, s1: U16, v1: int, s2: U16, v2: int)
    ensures View(mem, j + [Entry(loc, s1, v1)] + [Entry(loc, s2, v2)], loc) == Ok(v2)
  {
    ViewAfterWrite(mem, j + [Entry(loc, s1, v1)], Entry(loc, s2, v2), loc);
  }

  /**
   * Rolling back restores every journaled address to its snapshot: when the
   * snapshots are the storage the writes saw, and storage differs from it
   * only at journaled addresses, rollback gives that storage back.
   */
  lemma {:induction false} RestoreRecovers(mem: seq<U16>, m: seq<U16>, j: seq<Entry>)
    requires |m| == |mem| && InBounds(|mem|, j) && Snapshots(mem, j)
    requires forall k :: 0 <= k < |mem| && !Touches(j, k) ==> m[k] == mem[k]
    ensures Restore(m, j) == mem
    decreases |j|
  {
    if j != [] {
      var l := j[0].location;
      var m' := m[l := j[0].snapshot];
      forall k | 0 <= k < |mem| && !Touches(j[1..], k)
        ensures m'[k] == mem[k]
      {
        if k != l {
          forall i | 0 <= i < |j| ensures j[i].location != k {
            if i > 0 {
              assert j[i] == j[1..][i - 1];
            }
          }
        }
      }
      assert InBounds(|mem|, j[1..]) && Snapshots(mem, j[1..]);
      RestoreRecovers(mem, m', j[1..]);
    }
  }

  /** With storage unchanged since the writes, rollback changes nothing; a second rollback too. */
  lemma RollbackKeepsStorage(mem: seq<U16>, j: seq<Entry>)
    requires InBounds(|mem|, j) && Snapshots(mem, j)
    ensures Restore(mem, j) == mem
    ensures Restore(Restore(mem, j), []) == mem
  {
    RestoreRecovers(mem, mem, j);
  }

  /** The commit loop writes only journaled addresses. */
  lemma {:induction false} ApplyFrame(mem: seq<U16>, j: seq<Entry>, k: int)
    requires InBounds(|mem|, j) && 0 <= k < |mem| && !Touches(j, k)
    ensures Apply(mem, j).mem[k] == mem[k]
    decreases |j|
  {
    if j != [] && mem[j[0].location] == j[0].snapshot && Fits(j[0].value) {
      forall i | 0 <= i < |j[1..]| ensures j[1..][i].location != k {
        assert j[1..][i] == j[i + 1];
      }
      ApplyFrame(mem[j[0].location := j[0].value], j[1..], k);
    }
  }

  /** A value that does not fit rolls the whole transaction back: storage as before, journal empty. */
  lemma OverflowRollsBack(mem: seq<U16>, j: seq<Entry>)
    requires InBounds(|mem|, j) && Snapshots(mem, j)
    requires Apply(mem, j).failure == Some(OverflowError)
    ensures Commit(mem, j) == Committed(mem, [], Some(OverflowError))
  {
    forall k | 0 <= k < |mem| && !Touches(j, k)
      ensures Apply(mem, j).mem[k] == mem[k]
    {
      ApplyFrame(mem, j, k);
    }
    RestoreRecovers(mem, Apply(mem, j).mem, j);
  }

  /** The latest write to k in `[e] + r` is the latest in r, or else e's. */
  lemma {:induction false} LastWriteCons(e: Entry, r: seq<Entry>, k: int)
    ensures LastWrite([e] + r, k) ==
      if LastWrite(r, k).Some? then LastWrite(r, k) else if e.location == k then Some(e.value) else None
    decreases |r|
  {
    if r != [] {
      assert ([e] + r)[..|[e] + r| - 1] == [e] + r[..|r| - 1];
      LastWriteCons(e, r[..|r| - 1], k);
    }
  }

  /**
   * With distinct addresses, fitting values and storage unchanged since the
   * writes, commit succeeds, empties the journal, and leaves in storage
   * exactly what reads saw before it: the journaled values at their
   * addresses, and every other address as it was.
   */
  lemma {:induction false} CommitPublishesView(mem: seq<U16>, j: seq<Entry>)
    requires InBounds(|mem|, j) && Snapshots(mem, j) && Distinct(j)
    requires forall i :: 0 <= i < |j| ==> Fits(j[i].value)
    ensures Commit(mem, j).error == None && Commit(mem, j).journal == []
    ensures forall k :: 0 <= k < |mem| ==> View(mem, j, k) == Ok(Commit(mem, j).mem[k])
    decreases |j|
  {
    if j != [] {
      var e, rest := j[0], j[1..];
      var m' := mem[e.location := e.value];
      assert j == [e] + rest;
      assert InBounds(|m'|, rest) && Distinct(rest);
      assert Snapshots(m', rest) by {
        forall i | 0 <= i < |rest| ensures rest[i].snapshot == m'[rest[i].location] {
          assert rest[i] == j[i + 1];
        }
      }
      CommitPublishesView(m', rest);
      forall k | 0 <= k < |mem| ensures View(mem, j, k) == Ok(Commit(mem, j).mem[k]) {
        LastWriteCons(e, rest, k);
      }
    }
  }

  /** If the first i entries commit cleanly, the loop continues from where they left storage. */
  lemma {:induction false} ApplySplit(mem: seq<U16>, j: seq<Entry>, i: nat)
    requires InBounds(|mem|, j) && i <= |j|
    requires Apply(mem, j[..i]).failure.None?
    ensures Apply(mem, j) == Apply(Apply(mem, j[..i]).mem, j[i..])
    decreases i
  {
    if i > 0 {
      assert j[..i][0] == j[0] && j[..i][1..] == j[1..][..i - 1];
      ApplySplit(mem[j[0].location := j[0].value], j[1..], i - 1);
      assert j[1..][i - 1..] == j[i..];
    }
  }

  /**
   * A conflict at entry i: commit raises FatalTransactionError, entries
   * before i stay applied, and the journal is kept whole.
   */
  lemma ConflictKeepsEarlierEntries(mem: seq<U16>, j: seq<Entry>, i: nat)
    requires InBounds(|mem|, j) && i < |j|
    requires Apply(mem, j[..i]).failure.None?
    requires Apply(mem, j[..i]).mem[j[i].location] != j[i].snapshot
    ensures Commit(mem, j) == Committed(Apply(mem, j[..i]).mem, j, Some(FatalTransactionError))
  {
    ApplySplit(mem, j, i);
  }

  /**
   * Two writes to one address both snapshot the committed value, so once the
   * first is applied the second no longer matches: commit conflicts on it.
   */
  lemma SecondWriteConflicts(mem: seq<U16>, loc: nat, v1: int, v2: int)
    requires loc < |mem| && Fits(v1) && v1 != mem[loc]
    ensures var j := [Entry(loc, mem[loc], v1), Entry(loc, mem[loc], v2)];
      Commit(mem, j) == Committed(mem[loc := v1], j, Some(FatalTransactionError))
  {
    var j := [Entry(loc, mem[loc], v1), Entry(loc, mem[loc], v2)];
    assert j[1..] == [Entry(loc, mem[loc], v2)];
    assert Apply(mem[loc := v1], j[1..]) == Applied(mem[loc := v1], Some(FatalTransactionError));
  }

  /**
   * The handler typo as written: a journal whose second value overflows
   * leaves the first entry applied and the journal whole, raising NameError,
   * where the intended commit restores storage and empties the journal.
   */
  lemma CommitAsWrittenSkipsRollback(mem: seq<U16>, v: int)
    requires |mem| >= 2 && Fits(v) && v != mem[0]
    ensures var j := [Entry(0, mem[0], v), Entry(1, mem[1], 0x1_0000)];
      && CommitAsWritten(mem, j) == Committed(mem[0 := v], j, Some(NameError))
      && Commit(mem, j) == Committed(mem, [], Some(OverflowError))
  {
    var j := [Entry(0, mem[0], v), Entry(1, mem[1], 0x1_0000)];
    assert Apply(mem, j) == Applied(mem[0 := v], Some(OverflowError));
    OverflowRollsBack(mem, j);
  }
}
