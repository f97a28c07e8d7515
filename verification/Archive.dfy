/** graded.v1.json and its numbered archive copies: what the grade worker's
    archive-then-overwrite order keeps over any run, failures included. */
module Archive {
  import opened Wrappers
  import opened Decimals
  import opened Protocol

  function GradedKey(prefix: string): string { prefix + "/graded.v1.json" }

  function ArchiveKey(prefix: string, n: nat): string { prefix + "/graded.archive." + Decimal(n) + ".json" }

  lemma KeysApart(prefix: string, m: nat, n: nat)
    ensures ArchiveKey(prefix, m) == ArchiveKey(prefix, n) ==> m == n
    ensures ArchiveKey(prefix, m) != GradedKey(prefix)
  {
    var head := prefix + "/graded.archive.";
    var a, b := ArchiveKey(prefix, m), ArchiveKey(prefix, n);
    assert a[|head|..|a| - 5] == Decimal(m);
    assert b[|head|..|b| - 5] == Decimal(n);
    DecimalInjective(m, n);
    assert a[|prefix| + 8] == 'a';
    assert GradedKey(prefix)[|prefix| + 8] == 'v';
  }

  // The first archive index not in use
  ghost predicate FreeSlot<T>(o: map<string, T>, prefix: string, n: nat) {
    n >= 1 && ArchiveKey(prefix, n) !in o && forall j :: 1 <= j < n ==> ArchiveKey(prefix, j) in o
  }

  // The search ends on every store: each index it passes is one key more.
  lemma {:induction false} SlotFrom<T>(o: map<string, T>, prefix: string, i: nat, unseen: set<string>) returns (n: nat)
    requires i >= 1 && forall j :: 1 <= j < i ==> ArchiveKey(prefix, j) in o
    requires forall j :: j >= i && ArchiveKey(prefix, j) in o ==> ArchiveKey(prefix, j) in unseen
    ensures FreeSlot(o, prefix, n)
    decreases |unseen|
  {
    var key := ArchiveKey(prefix, i);
    if key !in o {
      n := i;
    } else {
      forall j | j >= i + 1 && ArchiveKey(prefix, j) in o ensures ArchiveKey(prefix, j) in unseen - {key} {
        KeysApart(prefix, i, j);
      }
      n := SlotFrom(o, prefix, i + 1, unseen - {key});
    }
  }

  ghost function NextSlot<T>(o: map<string, T>, prefix: string): (n: nat)
    ensures FreeSlot(o, prefix, n)
  {
    assert exists n :: FreeSlot(o, prefix, n) by {
      var n := SlotFrom(o, prefix, 1, o.Keys);
    }
    var n :| FreeSlot(o, prefix, n);
    n
  }

  // One event on a submission's artifacts ------------------------------------------

  // How far a grading got: nothing written, the prior paper archived but the
  // new one not stored, or both.
  datatype Reach = Nothing | ArchivedOnly | Stored

  datatype Event<T> = Grading(paper: T, reach: Reach) | Feedback(paper: T)

  ghost function Archived<T>(o: map<string, T>, prefix: string): map<string, T> {
    if GradedKey(prefix) in o then o[ArchiveKey(prefix, NextSlot(o, prefix)) := o[GradedKey(prefix)]] else o
  }

  ghost function Effect<T>(o: map<string, T>, prefix: string, e: Event<T>): map<string, T> {
    match e
    case Grading(paper, Nothing) => o
    case Grading(paper, ArchivedOnly) => Archived(o, prefix)
    case Grading(paper, Stored) => Archived(o, prefix)[GradedKey(prefix) := paper]
    case Feedback(paper) => if GradedKey(prefix) in o then o[GradedKey(prefix) := paper] else o
  }

  class ObjStore<T> {
    var objects: map<string, T>

    constructor ()
      ensures objects == map[]
    {
      objects := map[];
    }

    method Put(key: string, data: T, call: Call) returns (ok: bool)
      modifies this
      ensures ok == call.Succeeds?
      ensures objects == if call.Fails? then old(objects) else old(objects)[key := data]
    {
      if !call.Fails? {
        objects := objects[key := data];
      }
      ok := call.Succeeds?;
    }

    // getFails(0) is the read of the prior paper, getFails(i) the probe of slot i.
    method ArchivePriorGradedArtifact(prefix: string, getFails: nat -> bool, put: Call) returns (ok: bool)
      modifies this
      ensures objects == old(objects) || objects == Archived(old(objects), prefix)
      ensures ok ==> objects == Archived(old(objects), prefix)
      ensures (forall i :: !getFails(i)) && put.Succeeds? ==> ok
    {
      if getFails(0) {
        return false;
      }
      if GradedKey(prefix) !in objects {
        return true;
      }
      var priorData := objects[GradedKey(prefix)];
      var archiveIndex := 1;
      ghost var unseen := objects.Keys;
      while true
        invariant archiveIndex >= 1 && objects == old(objects)
        invariant forall j :: 1 <= j < archiveIndex ==> ArchiveKey(prefix, j) in objects
        invariant forall j :: j >= archiveIndex && ArchiveKey(prefix, j) in objects ==> ArchiveKey(prefix, j) in unseen
        decreases |unseen|
      {
        var archiveKey := ArchiveKey(prefix, archiveIndex);
        if getFails(archiveIndex) {
          return false;
        }
        if archiveKey !in objects {
          ok := Put(archiveKey, priorData, put);
          return;
        }
        forall j | j >= archiveIndex + 1 && ArchiveKey(prefix, j) in objects
          ensures ArchiveKey(prefix, j) in unseen - {archiveKey}
        {
          KeysApart(prefix, archiveIndex, j);
        }
        unseen := unseen - {archiveKey};
        archiveIndex := archiveIndex + 1;
      }
    }

    // The tail of the grade worker: archive the prior paper, then overwrite it.
    method StoreGraded(prefix: string, paper: T, getFails: nat -> bool, archivePut: Call, put: Call) returns (ok: bool)
      modifies this
      ensures exists reach :: objects == Effect(old(objects), prefix, Grading(paper, reach))
      ensures ok ==> objects == Effect(old(objects), prefix, Grading(paper, Stored))
      ensures (forall i :: !getFails(i)) && archivePut.Succeeds? && put.Succeeds? ==> ok
    {
      ghost var was := objects;
      ok := ArchivePriorGradedArtifact(prefix, getFails, archivePut);
      if !ok {
        assert objects == Effect(was, prefix, Grading(paper, Nothing))
               || objects == Effect(was, prefix, Grading(paper, ArchivedOnly));
        return;
      }
      ok := Put(GradedKey(prefix), paper, put);
      assert objects == Effect(was, prefix, Grading(paper, ArchivedOnly))
             || objects == Effect(was, prefix, Grading(paper, Stored));
    }
  }

  // The log ---------------------------------------------------------------------------

  // archive 1, 2, ..., then the current paper
  ghost predicate Represents<T>(o: map<string, T>, prefix: string, log: seq<T>) {
    && (log == [] <==> GradedKey(prefix) !in o)
    && (log != [] ==> o[GradedKey(prefix)] == log[|log| - 1])
    && (forall n :: n >= 1 ==> (ArchiveKey(prefix, n) in o <==> n < |log|))
    && (forall n :: 1 <= n < |log| ==> o[ArchiveKey(prefix, n)] == log[n - 1])
  }

  // What an event does to the log: a grading that failed half way leaves the
  // current paper listed twice.
  function Logged<T>(log: seq<T>, e: Event<T>): seq<T> {
    match e
    case Grading(paper, Nothing) => log
    case Grading(paper, ArchivedOnly) => if log == [] then log else log + [log[|log| - 1]]
    case Grading(paper, Stored) => log + [paper]
    case Feedback(paper) => if log == [] then log else log[|log| - 1 := paper]
  }

  ghost function RunEffects<T>(o: map<string, T>, prefix: string, es: seq<Event<T>>): map<string, T> {
    if es == [] then o else Effect(RunEffects(o, prefix, es[..|es| - 1]), prefix, es[|es| - 1])
  }

  function RunLog<T>(log: seq<T>, es: seq<Event<T>>): seq<T> {
    if es == [] then log else Logged(RunLog(log, es[..|es| - 1]), es[|es| - 1])
  }

  lemma ArchivedLog<T>(o: map<string, T>, prefix: string, log: seq<T>)
    requires Represents(o, prefix, log) && log != []
    ensures Represents(Archived(o, prefix), prefix, log + [log[|log| - 1]])
  {
    var n := NextSlot(o, prefix);
    assert FreeSlot(o, prefix, |log|);
    KeysApart(prefix, n, n);
    forall m: nat ensures ArchiveKey(prefix, m) == ArchiveKey(prefix, n) ==> m == n {
      KeysApart(prefix, m, n);
    }
  }

  lemma EffectLogged<T>(o: map<string, T>, prefix: string, log: seq<T>, e: Event<T>)
    requires Represents(o, prefix, log)
    ensures Represents(Effect(o, prefix, e), prefix, Logged(log, e))
  {
    if log == [] {
      forall n: nat ensures ArchiveKey(prefix, n) != GradedKey(prefix) {
        KeysApart(prefix, n, n);
      }
    } else {
      ArchivedLog(o, prefix, log);
      var twice := log + [log[|log| - 1]];
      assert twice[|twice| - 1 := e.paper] == log + [e.paper];
    }
  }

  // Over any run the store is the log of the gradings, in order.
  lemma {:induction false} StoreIsALog<T>(o: map<string, T>, prefix: string, log: seq<T>, es: seq<Event<T>>)
    requires Represents(o, prefix, log)
    ensures Represents(RunEffects(o, prefix, es), prefix, RunLog(log, es))
  {
    if es != [] {
      StoreIsALog(o, prefix, log, es[..|es| - 1]);
      EffectLogged(RunEffects(o, prefix, es[..|es| - 1]), prefix, RunLog(log, es[..|es| - 1]), es[|es| - 1]);
    }
  }

  // Append-only: whatever fails, no event changes or removes an archived copy.
  lemma {:induction false} ArchiveNeverChanges<T>(o: map<string, T>, prefix: string, es: seq<Event<T>>, n: nat)
    requires ArchiveKey(prefix, n) in o
    ensures ArchiveKey(prefix, n) in RunEffects(o, prefix, es)
    ensures RunEffects(o, prefix, es)[ArchiveKey(prefix, n)] == o[ArchiveKey(prefix, n)]
  {
    if es != [] {
      ArchiveNeverChanges(o, prefix, es[..|es| - 1], n);
      KeysApart(prefix, n, n);
    }
  }

  // The papers of the gradings that succeeded, oldest first
  function Papers<T>(es: seq<Event<T>>): seq<T> {
    if es == [] then []
    else Papers(es[..|es| - 1]) + (if es[|es| - 1].Grading? then [es[|es| - 1].paper] else [])
  }

  ghost predicate ErrorFree<T>(es: seq<Event<T>>) {
    forall i :: 0 <= i < |es| && es[i].Grading? ==> es[i].reach.Stored?
  }

  // Where the i-th grading stands, and where its round ends: before the next one
  function GradingAt<T>(es: seq<Event<T>>, i: nat): (p: nat)
    requires i < |Papers(es)|
    ensures p < |es| && es[p].Grading? && es[p].paper == Papers(es)[i]
  {
    var init := es[..|es| - 1];
    if i == |Papers(init)| then |es| - 1 else GradingAt(init, i)
  }

  function RoundEnd<T>(es: seq<Event<T>>, i: nat): (p: nat)
    requires i < |Papers(es)|
  {
    if i + 1 < |Papers(es)| then GradingAt(es, i + 1) else |es|
  }

  // No other grading falls into a round.
  lemma {:induction false} RoundsHoldFeedback<T>(es: seq<Event<T>>, i: nat)
    requires i < |Papers(es)|
    ensures GradingAt(es, i) < RoundEnd(es, i) <= |es|
    ensures forall p :: GradingAt(es, i) < p < RoundEnd(es, i) ==> es[p].Feedback?
  {
    var init := es[..|es| - 1];
    if i < |Papers(init)| {
      RoundsHoldFeedback(init, i);
    }
  }

  lemma {:induction false} OnePerGrading<T>(es: seq<Event<T>>)
    requires ErrorFree(es)
    ensures |RunLog([], es)| == |Papers(es)|
    ensures (forall i :: 0 <= i < |es| ==> es[i].Grading?) ==> RunLog([], es) == Papers(es)
  {
    if es != [] {
      OnePerGrading(es[..|es| - 1]);
    }
  }

  ghost predicate LastWritten<T>(es: seq<Event<T>>, i: nat)
    requires i < |Papers(es)| && i < |RunLog([], es)|
  {
    0 < RoundEnd(es, i) <= |es| && RunLog([], es)[i] == es[RoundEnd(es, i) - 1].paper
  }

  lemma {:induction false} EntryIsLastWritten<T>(es: seq<Event<T>>, i: nat)
    requires ErrorFree(es) && i < |Papers(es)| && i < |RunLog([], es)|
    ensures LastWritten(es, i)
  {
    var init := es[..|es| - 1];
    OnePerGrading(init);
    RoundsHoldFeedback(es, i);
    if i < |Papers(init)| {
      EntryIsLastWritten(init, i);
      RoundsHoldFeedback(init, i);
    }
  }

  // Without errors the log has one entry per grading: the paper that grading, or
  // the last feedback before the next one, wrote.
  lemma LogIsTheGradings<T>(es: seq<Event<T>>)
    requires ErrorFree(es)
    ensures |RunLog([], es)| == |Papers(es)|
    ensures forall i: nat :: i < |Papers(es)| ==> LastWritten(es, i)
    ensures (forall i :: 0 <= i < |es| ==> es[i].Grading?) ==> RunLog([], es) == Papers(es)
  {
    OnePerGrading(es);
    forall i: nat | i < |Papers(es)| ensures LastWritten(es, i) {
      EntryIsLastWritten(es, i);
    }
  }

  // All but the newest entry of the log stays as it is.
  lemma {:induction false} OnlyTheNewestIsRewritten<T>(log: seq<T>, es: seq<Event<T>>)
    requires log != []
    ensures |log| <= |RunLog(log, es)| && RunLog(log, es)[..|log| - 1] == log[..|log| - 1]
  {
    if es != [] {
      OnlyTheNewestIsRewritten(log, es[..|es| - 1]);
    }
  }
}
