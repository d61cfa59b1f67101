/** What the store converges to when sessions interleave their persist transactions. */
module MergeConvergence {
  import opened Records
  import opened ExportProtocol

  /** Apply transactions in order; the first working set plays the initial store. */
  function Replay(sets: seq<RecordMap>): RecordMap {
    if sets == [] then map[] else Transact(sets[|sets| - 1], Replay(sets[..|sets| - 1]))
  }

  /** No writer holds a record for `k` that a load would quarantine. */
  ghost predicate ValidAt(sets: seq<RecordMap>, k: string) {
    forall i :: 0 <= i < |sets| && k in sets[i] ==> ValidRecord(sets[i][k])
  }

  /** Set `i` holds the record of `k` that must survive: the newest one, and on a tie the last. */
  ghost predicate Winner(sets: seq<RecordMap>, i: nat, k: string) {
    && i < |sets| && k in sets[i]
    && forall j :: 0 <= j < |sets| && k in sets[j] ==>
         && sets[j][k].updatedAt <= sets[i][k].updatedAt
         && (j > i ==> sets[j][k].updatedAt < sets[i][k].updatedAt)
  }

  /** One transaction at one key. */
  lemma TransactAt(mine: RecordMap, store: RecordMap, k: string)
    requires k in store ==> ValidRecord(store[k])
    ensures k in Transact(mine, store) <==> k in mine || k in store
    ensures k in mine && (k in store ==> store[k].updatedAt <= mine[k].updatedAt) ==>
            Transact(mine, store)[k] == mine[k]
    ensures k in store && (k in mine ==> mine[k].updatedAt < store[k].updatedAt) ==>
            Transact(mine, store)[k] == store[k]
  {
  }

  lemma OldWinnerStays(before: seq<RecordMap>, mine: RecordMap, i: nat, k: string)
    requires Winner(before, i, k) && (k in mine ==> mine[k].updatedAt < before[i][k].updatedAt)
    ensures Winner(before + [mine], i, k)
  {
  }

  lemma NewWinnerTakesOver(before: seq<RecordMap>, mine: RecordMap, k: string)
    requires k in mine
    requires forall j :: 0 <= j < |before| && k in before[j] ==> before[j][k].updatedAt <= mine[k].updatedAt
    ensures Winner(before + [mine], |before|, k)
  {
  }

  lemma ReplayUnfolds(before: seq<RecordMap>, mine: RecordMap)
    ensures Replay(before + [mine]) == Transact(mine, Replay(before))
  {
  }

  /** The store after any interleaving: exactly the keys some writer held, each with the newest
      record ever persisted for it, and among equally new ones the last persisted. */
  lemma {:induction false} ReplayKeepsNewest(sets: seq<RecordMap>, k: string) returns (i: nat)
    requires ValidAt(sets, k)
    ensures k in Replay(sets) <==> exists j :: 0 <= j < |sets| && k in sets[j]
    ensures k in Replay(sets) ==> Winner(sets, i, k) && Replay(sets)[k] == sets[i][k]
  {
    i := 0;
    if sets != [] {
      var before, mine := sets[..|sets| - 1], sets[|sets| - 1];
      assert sets == before + [mine];
      i := ReplayKeepsNewest(before, k);
      ReplayUnfolds(before, mine);
      var store := Replay(before);
      TransactAt(mine, store, k);
      if k in store && (k in mine ==> mine[k].updatedAt < store[k].updatedAt) {
        OldWinnerStays(before, mine, i, k);
      } else if k in mine {
        NewWinnerTakesOver(before, mine, k);
        i := |before|;
      } else {
        assert forall j :: 0 <= j < |sets| ==> k !in sets[j];
      }
    }
  }

  /** Keys are never lost, and the durable stamp of a key never decreases, however many
      transactions follow. */
  lemma {:induction false} NothingIsLost(sets: seq<RecordMap>, later: seq<RecordMap>, k: string)
    requires ValidAt(sets + later, k) && k in Replay(sets)
    ensures k in Replay(sets + later) && Replay(sets)[k].updatedAt <= Replay(sets + later)[k].updatedAt
  {
    assert ValidAt(sets, k) by {
      assert forall j :: 0 <= j < |sets| ==> (sets + later)[j] == sets[j];
    }
    var i := ReplayKeepsNewest(sets, k);
    assert (sets + later)[i] == sets[i];
    var _ := ReplayKeepsNewest(sets + later, k);
  }

  ghost predicate DistinctStamps(sets: seq<RecordMap>) {
    forall i, j, k ::
      0 <= i < |sets| && 0 <= j < |sets| && k in sets[i] && k in sets[j] && sets[i][k].updatedAt == sets[j][k].updatedAt
      ==> sets[i][k] == sets[j][k]
  }

  /** If equally stamped records of a key are equal, the order of the transactions is irrelevant. */
  lemma OrderDoesNotMatter(sets: seq<RecordMap>, other: seq<RecordMap>)
    requires multiset(sets) == multiset(other) && DistinctStamps(sets) && forall k :: ValidAt(sets, k)
    ensures Replay(sets) == Replay(other)
  {
    assert forall m :: m in multiset(sets) <==> m in multiset(other);
    forall k
      ensures k in Replay(sets) <==> k in Replay(other)
      ensures k in Replay(sets) ==> Replay(sets)[k] == Replay(other)[k]
    {
      assert ValidAt(sets, k);
      forall j | 0 <= j < |other| && k in other[j]
        ensures ValidRecord(other[j][k])
      {
        var j' := SameElement(other, sets, j);
      }
      var i := ReplayKeepsNewest(sets, k);
      var j := ReplayKeepsNewest(other, k);
      if k in Replay(sets) {
        var i' := SameElement(sets, other, i);
        assert k in Replay(other);
        var j' := SameElement(other, sets, j);
      } else if k in Replay(other) {
        var j' := SameElement(other, sets, j);
      }
    }
  }

  lemma SameElement(sets: seq<RecordMap>, other: seq<RecordMap>, i: nat) returns (j: nat)
    requires multiset(sets) == multiset(other) && i < |sets|
    ensures j < |other| && other[j] == sets[i]
  {
    assert sets[i] in multiset(sets);
    assert sets[i] in other;
    j :| 0 <= j < |other| && other[j] == sets[i];
  }

  // ----- the exact limits of last-writer-wins ------------------------------------------

  /** Another writer's durable record survives a transaction if and only if this writer does not
      hold the key, holds the same record, or holds a strictly older one. */
  lemma SurvivesIff(mine: RecordMap, store: RecordMap, k: string)
    requires k in store && ValidRecord(store[k])
    ensures k in Transact(mine, store)
    ensures Transact(mine, store)[k] == store[k] <==>
            k !in mine || mine[k] == store[k] || mine[k].updatedAt < store[k].updatedAt
  {
  }

  /** A key disappears from the store if and only if its record violates the table and the
      writer does not hold the key. */
  lemma LostIff(mine: RecordMap, store: RecordMap, k: string)
    requires k in store
    ensures k !in Transact(mine, store) <==> k !in mine && !ValidRecord(store[k])
  {
  }

  /** The durable stamp of a key decreases if and only if its record is quarantined by the load and the
      writer holds an older one. */
  lemma StampDecreasesIff(mine: RecordMap, store: RecordMap, k: string)
    requires k in store
    ensures k in Transact(mine, store) && Transact(mine, store)[k].updatedAt < store[k].updatedAt <==>
            !ValidRecord(store[k]) && k in mine && mine[k].updatedAt < store[k].updatedAt
  {
  }

  /** The commit point does not restamp the record, so a session that loaded the EXPORTED record
      before the commit rolls the COMMITTED one back with any of its later saves. */
  lemma StaleSessionUndoesCommit(mine: RecordMap, store: RecordMap, k: string)
    requires k in mine && TryCommitExported(mine[k]).Some?
    requires k in store && store[k] == TryCommitExported(mine[k]).value
    ensures Transact(mine, store)[k] == mine[k] && Transact(mine, store)[k].status.Exported?
  {
  }
}
