/** The marking_guide table: numbered versions per assessment, locking, and
    which version a grading is pinned to. */
module Guides {
  import opened Wrappers
  import opened Protocol

  // tenant and assessment version
  type Scope = (nat, nat)

  datatype GuideRow = GuideRow(scope: Scope, version: nat, content: string, locked: bool)

  function MaxVersion(rows: seq<GuideRow>, s: Scope): nat {
    if rows == [] then 0
    else
      var rest, last := MaxVersion(rows[..|rows| - 1], s), rows[|rows| - 1];
      if last.scope == s && last.version > rest then last.version else rest
  }

  // 0 when no version is locked
  function HighestLocked(rows: seq<GuideRow>, s: Scope): nat {
    if rows == [] then 0
    else
      var rest, last := HighestLocked(rows[..|rows| - 1], s), rows[|rows| - 1];
      if last.scope == s && last.locked && last.version > rest then last.version else rest
  }

  function VersionsOf(rows: seq<GuideRow>, s: Scope): seq<nat> {
    if rows == [] then []
    else VersionsOf(rows[..|rows| - 1], s) +
         (if rows[|rows| - 1].scope == s then [rows[|rows| - 1].version] else [])
  }

  // COALESCE(MAX(version), 0) + 1, unlocked
  function Inserted(rows: seq<GuideRow>, s: Scope, content: string): seq<GuideRow> {
    rows + [GuideRow(s, MaxVersion(rows, s) + 1, content, false)]
  }

  // UPDATE ... SET locked = true WHERE tenant_id AND id: no row, no effect
  function Locked(rows: seq<GuideRow>, tenant: nat, id: nat): seq<GuideRow> {
    if id < |rows| && rows[id].scope.0 == tenant then rows[id := rows[id].(locked := true)] else rows
  }

  // Is row i one that ListGuideVersions returns?
  predicate Listed(rows: seq<GuideRow>, s: Scope, i: nat) {
    i < |rows| && rows[i].scope == s
  }

  predicate Valid(rows: seq<GuideRow>, ids: seq<nat>) {
    forall k :: 0 <= k < |ids| ==> ids[k] < |rows|
  }

  function InsertDescending(rows: seq<GuideRow>, ids: seq<nat>, i: nat): (out: seq<nat>)
    requires i < |rows| && Valid(rows, ids)
    ensures Valid(rows, out)
  {
    if ids == [] || rows[ids[0]].version <= rows[i].version then [i] + ids
    else [ids[0]] + InsertDescending(rows, ids[1..], i)
  }

  // The rows of a scope among the first n, ORDER BY version DESC
  function ListGuideVersions(rows: seq<GuideRow>, s: Scope, n: nat): (ids: seq<nat>)
    requires n <= |rows|
    ensures Valid(rows, ids)
  {
    if n == 0 then []
    else
      var ids := ListGuideVersions(rows, s, n - 1);
      if rows[n - 1].scope == s then InsertDescending(rows, ids, n - 1) else ids
  }

  ghost predicate Descending(rows: seq<GuideRow>, ids: seq<nat>)
    requires Valid(rows, ids)
  {
    forall j, k :: 0 <= j < k < |ids| ==> rows[ids[j]].version >= rows[ids[k]].version
  }

  lemma {:induction false} InsertKeepsOrder(rows: seq<GuideRow>, ids: seq<nat>, i: nat)
    requires i < |rows| && Valid(rows, ids) && Descending(rows, ids)
    ensures Descending(rows, InsertDescending(rows, ids, i))
    ensures forall x :: x in InsertDescending(rows, ids, i) <==> x == i || x in ids
  {
    if ids != [] && rows[ids[0]].version > rows[i].version {
      InsertKeepsOrder(rows, ids[1..], i);
      var rest := InsertDescending(rows, ids[1..], i);
      forall k | 0 <= k < |rest| ensures rows[ids[0]].version >= rows[rest[k]].version {
        assert rest[k] in rest;
      }
    }
  }

  lemma {:induction false} ListedNewestFirst(rows: seq<GuideRow>, s: Scope, n: nat)
    requires n <= |rows|
    ensures var ids := ListGuideVersions(rows, s, n);
            && Descending(rows, ids)
            && (forall x: nat :: x in ids <==> x < n && Listed(rows, s, x))
  {
    if n > 0 {
      ListedNewestFirst(rows, s, n - 1);
      if rows[n - 1].scope == s {
        InsertKeepsOrder(rows, ListGuideVersions(rows, s, n - 1), n - 1);
      }
    }
  }

  // The version a grading uses: the highest locked one, else the latest.
  function PinnedVersion(rows: seq<GuideRow>, s: Scope): nat {
    if HighestLocked(rows, s) > 0 then HighestLocked(rows, s) else MaxVersion(rows, s)
  }

  lemma {:induction false} HighestLockedIsMax(rows: seq<GuideRow>, s: Scope)
    ensures forall i: nat :: Listed(rows, s, i) && rows[i].locked ==> rows[i].version <= HighestLocked(rows, s)
    ensures HighestLocked(rows, s) > 0 ==>
              exists i: nat :: Listed(rows, s, i) && rows[i].locked && rows[i].version == HighestLocked(rows, s)
  {
    if rows != [] {
      var init := rows[..|rows| - 1];
      HighestLockedIsMax(init, s);
      forall i: nat ensures Listed(rows, s, i) && rows[i].locked ==> rows[i].version <= HighestLocked(rows, s) {
        assert i < |init| ==> (Listed(init, s, i) <==> Listed(rows, s, i));
      }
      if HighestLocked(init, s) > 0 {
        var i: nat :| Listed(init, s, i) && init[i].locked && init[i].version == HighestLocked(init, s);
        assert Listed(rows, s, i);
      }
      assert rows[|rows| - 1].scope == s ==> Listed(rows, s, |rows| - 1);
    }
  }

  lemma {:induction false} MaxVersionIsMax(rows: seq<GuideRow>, s: Scope)
    ensures forall i: nat :: Listed(rows, s, i) ==> rows[i].version <= MaxVersion(rows, s)
    ensures MaxVersion(rows, s) > 0 ==> exists i: nat :: Listed(rows, s, i) && rows[i].version == MaxVersion(rows, s)
  {
    if rows != [] {
      var init := rows[..|rows| - 1];
      MaxVersionIsMax(init, s);
      forall i: nat ensures Listed(rows, s, i) ==> rows[i].version <= MaxVersion(rows, s) {
        assert i < |init| ==> (Listed(init, s, i) <==> Listed(rows, s, i));
      }
      if MaxVersion(init, s) > 0 {
        var i: nat :| Listed(init, s, i) && init[i].version == MaxVersion(init, s);
        assert Listed(rows, s, i);
      }
      assert rows[|rows| - 1].scope == s ==> Listed(rows, s, |rows| - 1);
    }
  }

  ghost predicate Positive(rows: seq<GuideRow>) {
    forall i :: 0 <= i < |rows| ==> rows[i].version > 0
  }

  // How selectLockedOrLatestGuide ends: the row chosen, and whether it is to be locked.
  ghost predicate Chosen(rows: seq<GuideRow>, s: Scope, id: nat, lockFirst: bool) {
    && Listed(rows, s, id)
    && rows[id].version == PinnedVersion(rows, s)
    && (lockFirst <==> HighestLocked(rows, s) == 0)
    && (!lockFirst ==> rows[id].locked)
  }

  lemma EmptyListing(rows: seq<GuideRow>, s: Scope)
    ensures ListGuideVersions(rows, s, |rows|) == [] <==> VersionsOf(rows, s) == []
  {
    var ids := ListGuideVersions(rows, s, |rows|);
    ListedNewestFirst(rows, s, |rows|);
    NoVersions(rows, s);
    assert ids != [] ==> ids[0] in ids;
    assert forall i: nat :: Listed(rows, s, i) ==> i in ids;
  }

  lemma FirstLockedIsChosen(rows: seq<GuideRow>, s: Scope, k: nat)
    requires Positive(rows) && k < |ListGuideVersions(rows, s, |rows|)|
    requires var ids := ListGuideVersions(rows, s, |rows|);
             rows[ids[k]].locked && forall j :: 0 <= j < k ==> !rows[ids[j]].locked
    ensures Chosen(rows, s, ListGuideVersions(rows, s, |rows|)[k], false)
  {
    var ids := ListGuideVersions(rows, s, |rows|);
    ListedNewestFirst(rows, s, |rows|);
    HighestLockedIsMax(rows, s);
    assert ids[k] in ids;
    var i: nat :| Listed(rows, s, i) && rows[i].locked && rows[i].version == HighestLocked(rows, s);
    assert i in ids;
  }

  lemma HeadIsChosen(rows: seq<GuideRow>, s: Scope)
    requires Positive(rows) && ListGuideVersions(rows, s, |rows|) != []
    requires var ids := ListGuideVersions(rows, s, |rows|);
             forall j :: 0 <= j < |ids| ==> !rows[ids[j]].locked
    ensures Chosen(rows, s, ListGuideVersions(rows, s, |rows|)[0], true)
  {
    var ids := ListGuideVersions(rows, s, |rows|);
    ListedNewestFirst(rows, s, |rows|);
    HighestLockedIsMax(rows, s);
    MaxVersionIsMax(rows, s);
    assert ids[0] in ids;
    var i: nat :| Listed(rows, s, i) && rows[i].version == MaxVersion(rows, s);
    assert i in ids;
    forall l: nat | Listed(rows, s, l)
      ensures !rows[l].locked
    {
      assert l in ids;
    }
  }

  class GuideTable {
    var rows: seq<GuideRow>

    constructor ()
      ensures rows == []
    {
      rows := [];
    }

    method InsertGuideVersion(s: Scope, content: string) returns (version: nat)
      modifies this
      ensures rows == Inserted(old(rows), s, content) && version == MaxVersion(old(rows), s) + 1
      ensures old(Numbered(rows)) ==> Numbered(rows)
    {
      ghost var was := rows;
      var best := 0;
      for i := 0 to |rows|
        invariant best == MaxVersion(rows[..i], s) && rows == old(rows)
      {
        assert rows[..i + 1][..i] == rows[..i];
        if rows[i].scope == s && rows[i].version > best {
          best := rows[i].version;
        }
      }
      assert rows[..|rows|] == rows;
      version := best + 1;
      rows := rows + [GuideRow(s, version, content, false)];
      if Numbered(was) {
        StaysNumbered(was, Import(s, content));
      }
    }

    method LockGuide(tenant: nat, id: nat, call: Call) returns (ok: bool)
      modifies this
      ensures rows == if call.Fails? then old(rows) else Locked(old(rows), tenant, id)
      ensures ok ==> call.Succeeds?
      ensures old(Numbered(rows)) ==> Numbered(rows)
    {
      if Numbered(rows) {
        StaysNumbered(rows, ExplicitLock(tenant, id));
      }
      if call.Fails? {
        return false;
      }
      if id >= |rows| || rows[id].scope.0 != tenant {
        return false;
      }
      rows := rows[id := rows[id].(locked := true)];
      ok := call.Succeeds?;
    }

    // The first locked version of the newest-first list, else its head.
    method SelectLockedOrLatestGuide(s: Scope) returns (r: Option<(nat, bool)>)
      requires Numbered(rows)
      ensures r.None? <==> VersionsOf(rows, s) == []
      ensures r.Some? ==> Chosen(rows, s, r.value.0, r.value.1)
    {
      var ids := ListGuideVersions(rows, s, |rows|);
      NumberedIsPositive(rows);
      EmptyListing(rows, s);
      if |ids| == 0 {
        return None;
      }
      for k := 0 to |ids|
        invariant forall j :: 0 <= j < k ==> !rows[ids[j]].locked
      {
        if rows[ids[k]].locked {
          FirstLockedIsChosen(rows, s, k);
          return Some((ids[k], false));
        }
      }
      HeadIsChosen(rows, s);
      r := Some((ids[0], true));
    }

    // Which guide a grading takes, locking it when no version was locked yet.
    // A failing lock is only logged.
    method PinForGrading(s: Scope, lock: Call) returns (version: Option<nat>)
      requires Numbered(rows)
      modifies this
      ensures version == if VersionsOf(old(rows), s) == [] then None else Some(PinnedVersion(old(rows), s))
      ensures exists id :: PinStep(old(rows), rows, s, lock, id)
      ensures Numbered(rows)
    {
      ghost var was := rows;
      var choice := SelectLockedOrLatestGuide(s);
      if choice.None? {
        assert PinStep(was, rows, s, lock, 0);
        return None;
      }
      var (id, lockFirst) := choice.value;
      version := Some(rows[id].version);
      if lockFirst {
        var _ := LockGuide(s.0, id, lock);
      }
      assert PinStep(was, rows, s, lock, id);
    }
  }

  lemma {:induction false} NoVersions(rows: seq<GuideRow>, s: Scope)
    ensures VersionsOf(rows, s) == [] <==> forall i: nat :: !Listed(rows, s, i)
  {
    if rows != [] {
      var init := rows[..|rows| - 1];
      NoVersions(init, s);
      assert forall i: nat :: i < |init| ==> (Listed(init, s, i) <==> Listed(rows, s, i));
      assert Listed(rows, s, |rows| - 1) <==> rows[|rows| - 1].scope == s;
    }
  }

  // Runs ------------------------------------------------------------------------------

  datatype Event =
    | Import(s: Scope, content: string)
    | ExplicitLock(tenant: nat, id: nat)
    | Pin(s: Scope, lock: Call, id: nat)    // a grading of scope s that chose row id

  ghost predicate PinStep(rows: seq<GuideRow>, rows': seq<GuideRow>, s: Scope, lock: Call, id: nat) {
    if VersionsOf(rows, s) == [] then rows' == rows
    else
      && Chosen(rows, s, id, HighestLocked(rows, s) == 0)
      && rows' == if HighestLocked(rows, s) == 0 && !lock.Fails? then Locked(rows, s.0, id) else rows
  }

  function After(rows: seq<GuideRow>, e: Event): seq<GuideRow> {
    match e
    case Import(s, content) => Inserted(rows, s, content)
    case ExplicitLock(tenant, id) => Locked(rows, tenant, id)
    case Pin(s, lock, id) =>
      if VersionsOf(rows, s) != [] && HighestLocked(rows, s) == 0 && !lock.Fails? then Locked(rows, s.0, id) else rows
  }

  ghost predicate Legal(rows: seq<GuideRow>, e: Event) {
    e.Pin? ==> PinStep(rows, After(rows, e), e.s, e.lock, e.id)
  }

  ghost predicate LegalRun(rows: seq<GuideRow>, es: seq<Event>)
    decreases |es|
  {
    es == [] || (Legal(rows, es[0]) && LegalRun(After(rows, es[0]), es[1..]))
  }

  // The versions the gradings of scope s used, in order
  function GradedVersions(rows: seq<GuideRow>, es: seq<Event>, s: Scope): seq<nat>
    decreases |es|
  {
    if es == [] then []
    else
      var e := es[0];
      (if e.Pin? && e.s == s && VersionsOf(rows, s) != [] then [PinnedVersion(rows, s)] else [])
      + GradedVersions(After(rows, e), es[1..], s)
  }

  // A scope with guides can always be graded, and unless the lock fails a grading
  // locks the version it used when nothing was locked yet, and that only.
  lemma GradingLocks(rows: seq<GuideRow>, s: Scope, lock: Call) returns (id: nat)
    requires Numbered(rows) && exists i: nat :: Listed(rows, s, i)
    ensures Listed(rows, s, id) && Legal(rows, Pin(s, lock, id)) && rows[id].version == PinnedVersion(rows, s)
    ensures After(rows, Pin(s, lock, id)) ==
            if lock.Fails? || exists i: nat :: Listed(rows, s, i) && rows[i].locked then rows
            else rows[id := rows[id].(locked := true)]
  {
    NumberedIsPositive(rows);
    NoVersions(rows, s);
    HighestLockedIsMax(rows, s);
    MaxVersionIsMax(rows, s);
    if HighestLocked(rows, s) > 0 {
      id :| Listed(rows, s, id) && rows[id].locked && rows[id].version == HighestLocked(rows, s);
    } else {
      id :| Listed(rows, s, id) && rows[id].version == MaxVersion(rows, s);
    }
  }

  // Versions are numbered 1, 2, 3, ... in every scope.
  ghost predicate Numbered(rows: seq<GuideRow>) {
    forall s, k :: 0 <= k < |VersionsOf(rows, s)| ==> VersionsOf(rows, s)[k] == k + 1
  }

  lemma {:induction false} NumberedMax(rows: seq<GuideRow>, s: Scope)
    requires forall k :: 0 <= k < |VersionsOf(rows, s)| ==> VersionsOf(rows, s)[k] == k + 1
    ensures MaxVersion(rows, s) == |VersionsOf(rows, s)|
  {
    if rows != [] {
      var init := rows[..|rows| - 1];
      forall k | 0 <= k < |VersionsOf(init, s)| ensures VersionsOf(init, s)[k] == k + 1 {
        assert VersionsOf(rows, s)[k] == VersionsOf(init, s)[k];
      }
      NumberedMax(init, s);
      var v := VersionsOf(rows, s);
      if rows[|rows| - 1].scope == s {
        assert v[|v| - 1] == rows[|rows| - 1].version;
      }
    }
  }

  lemma {:induction false} LockKeeps(rows: seq<GuideRow>, tenant: nat, id: nat, s: Scope)
    ensures VersionsOf(Locked(rows, tenant, id), s) == VersionsOf(rows, s)
    ensures MaxVersion(Locked(rows, tenant, id), s) == MaxVersion(rows, s)
    ensures HighestLocked(rows, s) <= HighestLocked(Locked(rows, tenant, id), s)
    ensures id < |rows| && rows[id].scope != s ==> HighestLocked(Locked(rows, tenant, id), s) == HighestLocked(rows, s)
    ensures id < |rows| && rows[id].scope.0 == tenant && rows[id].scope == s ==>
              HighestLocked(Locked(rows, tenant, id), s) ==
              if rows[id].version > HighestLocked(rows, s) then rows[id].version else HighestLocked(rows, s)
  {
    var rows' := Locked(rows, tenant, id);
    if rows != [] {
      var n := |rows| - 1;
      LockKeeps(rows[..n], tenant, id, s);
      if id < n {
        assert rows'[..n] == Locked(rows[..n], tenant, id);
      } else {
        assert rows'[..n] == rows[..n];
      }
    }
  }

  lemma {:induction false} NumberedIsPositive(rows: seq<GuideRow>)
    requires Numbered(rows)
    ensures Positive(rows)
  {
    forall i | 0 <= i < |rows| ensures rows[i].version > 0 {
      VersionAt(rows, i);
    }
  }

  lemma {:induction false} VersionAt(rows: seq<GuideRow>, i: nat)
    requires i < |rows|
    ensures rows[i].version in VersionsOf(rows, rows[i].scope)
  {
    if i < |rows| - 1 {
      VersionAt(rows[..|rows| - 1], i);
    }
  }

  lemma StaysNumbered(rows: seq<GuideRow>, e: Event)
    requires Numbered(rows)
    ensures Numbered(After(rows, e))
  {
    forall s, k | 0 <= k < |VersionsOf(After(rows, e), s)| ensures VersionsOf(After(rows, e), s)[k] == k + 1 {
      match e
      case Import(t, content) =>
        NumberedMax(rows, t);
      case ExplicitLock(tenant, id) => LockKeeps(rows, tenant, id, s);
      case Pin(t, lock, id) => LockKeeps(rows, t.0, id, s);
    }
  }

  // What one event does to the highest lock of a scope: it never goes down,
  // a grading leaves it at the version it used, and an event that is neither a
  // grading of the scope nor an explicit lock leaves it alone.
  lemma LockMoves(rows: seq<GuideRow>, e: Event, s: Scope)
    requires Numbered(rows) && Legal(rows, e) && (e.Pin? ==> !e.lock.Fails?)
    ensures HighestLocked(rows, s) <= HighestLocked(After(rows, e), s)
    ensures e.Pin? && e.s == s && VersionsOf(rows, s) != [] ==>
              HighestLocked(After(rows, e), s) == PinnedVersion(rows, s) > 0
    ensures !e.ExplicitLock? && HighestLocked(rows, s) > 0 ==>
              HighestLocked(After(rows, e), s) == HighestLocked(rows, s)
  {
    match e
    case Import(t, content) =>
    case ExplicitLock(tenant, id) => LockKeeps(rows, tenant, id, s);
    case Pin(t, lock, id) =>
      LockKeeps(rows, t.0, id, s);
      NumberedMax(rows, t);
  }

  ghost predicate LocksSucceed(es: seq<Event>) {
    forall i :: 0 <= i < |es| && es[i].Pin? ==> !es[i].lock.Fails?
  }

  ghost predicate NondecreasingFrom(v: nat, xs: seq<nat>) {
    && (forall i :: 0 <= i < |xs| ==> v <= xs[i])
    && (forall i, j :: 0 <= i < j < |xs| ==> xs[i] <= xs[j])
  }

  // Pinning: the versions stay numbered, and those graded against never go down.
  lemma {:induction false} GradedVersionsNeverDrop(rows: seq<GuideRow>, es: seq<Event>, s: Scope)
    requires Numbered(rows) && LegalRun(rows, es) && LocksSucceed(es)
    ensures NondecreasingFrom(HighestLocked(rows, s), GradedVersions(rows, es, s))
    decreases |es|
  {
    if es != [] {
      var e := es[0];
      LockMoves(rows, e, s);
      StaysNumbered(rows, e);
      GradedVersionsNeverDrop(After(rows, e), es[1..], s);
    }
  }

  // Once locked, and while nobody locks explicitly, every grading uses that version.
  lemma {:induction false} LockedVersionStays(rows: seq<GuideRow>, es: seq<Event>, s: Scope)
    requires Numbered(rows) && LegalRun(rows, es) && LocksSucceed(es) && HighestLocked(rows, s) > 0
    requires forall i :: 0 <= i < |es| ==> !es[i].ExplicitLock?
    ensures forall i :: 0 <= i < |GradedVersions(rows, es, s)| ==>
              GradedVersions(rows, es, s)[i] == HighestLocked(rows, s)
    decreases |es|
  {
    if es != [] {
      LockMoves(rows, es[0], s);
      StaysNumbered(rows, es[0]);
      LockedVersionStays(After(rows, es[0]), es[1..], s);
    }
  }

  // So without explicit locks the first grading decides for all that follow.
  lemma {:induction false} FirstGradingPins(rows: seq<GuideRow>, es: seq<Event>, s: Scope)
    requires Numbered(rows) && LegalRun(rows, es) && LocksSucceed(es)
    requires forall i :: 0 <= i < |es| ==> !es[i].ExplicitLock?
    ensures forall i, j :: 0 <= i < j < |GradedVersions(rows, es, s)| ==>
              GradedVersions(rows, es, s)[i] == GradedVersions(rows, es, s)[j]
    decreases |es|
  {
    if es != [] {
      var e := es[0];
      LockMoves(rows, e, s);
      StaysNumbered(rows, e);
      if e.Pin? && e.s == s && VersionsOf(rows, s) != [] {
        LockedVersionStays(After(rows, e), es[1..], s);
      } else {
        FirstGradingPins(After(rows, e), es[1..], s);
      }
    }
  }

  lemma {:induction false} RunStaysNumbered(rows: seq<GuideRow>, es: seq<Event>)
    requires Numbered(rows)
    ensures Numbered(RunTable(rows, es))
    decreases |es|
  {
    if es != [] {
      StaysNumbered(rows, es[0]);
      RunStaysNumbered(After(rows, es[0]), es[1..]);
    }
  }

  function RunTable(rows: seq<GuideRow>, es: seq<Event>): seq<GuideRow>
    decreases |es|
  {
    if es == [] then rows else RunTable(After(rows, es[0]), es[1..])
  }

  // When versions drop ----------------------------------------------------------------

  // One event, whatever becomes of a grading's lock: the highest lock and the
  // latest version never go down, and only an explicit lock or the first locking
  // of the scope moves the highest lock.
  lemma EventMoves(rows: seq<GuideRow>, e: Event, s: Scope)
    requires Numbered(rows) && Legal(rows, e)
    ensures HighestLocked(rows, s) <= HighestLocked(After(rows, e), s)
    ensures MaxVersion(rows, s) <= MaxVersion(After(rows, e), s)
    ensures !e.ExplicitLock? ==>
              || HighestLocked(After(rows, e), s) == HighestLocked(rows, s)
              || (e.Pin? && e.s == s && VersionsOf(rows, s) != [] && HighestLocked(rows, s) == 0
                  && HighestLocked(After(rows, e), s) == MaxVersion(rows, s))
  {
    match e
    case Import(t, content) =>
      assert Inserted(rows, t, content)[..|rows|] == rows;
    case ExplicitLock(tenant, id) => LockKeeps(rows, tenant, id, s);
    case Pin(t, lock, id) => LockKeeps(rows, t.0, id, s);
  }

  predicate Grades(rows: seq<GuideRow>, e: Event, s: Scope) {
    e.Pin? && e.s == s && VersionsOf(rows, s) != []
  }

  // An explicit lock, made while nothing was locked in the scope, of a version
  // below one already graded against.
  predicate Undercuts(rows: seq<GuideRow>, e: Event, s: Scope, graded: nat) {
    && e.ExplicitLock? && HighestLocked(rows, s) == 0
    && 0 < HighestLocked(After(rows, e), s) < graded
  }

  // No grading follows such a lock before a further lock makes up for it; graded
  // is the highest version graded against so far, low whether one is in force.
  predicate NoUndercutGraded(rows: seq<GuideRow>, es: seq<Event>, s: Scope, graded: nat, low: bool)
    decreases |es|
  {
    es == [] ||
    var e, rows' := es[0], After(rows, es[0]);
    && !(low && Grades(rows, e, s))
    && NoUndercutGraded(rows', es[1..], s,
                        if Grades(rows, e, s) then PinnedVersion(rows, s) else graded,
                        Undercuts(rows, e, s, graded) || (low && HighestLocked(rows', s) < graded))
  }

  lemma {:induction false} DropsIffUndercutFrom(rows: seq<GuideRow>, es: seq<Event>, s: Scope, graded: nat, low: bool)
    requires Numbered(rows) && LegalRun(rows, es)
    requires low <==> 0 < HighestLocked(rows, s) < graded
    requires HighestLocked(rows, s) == 0 ==> graded <= MaxVersion(rows, s)
    ensures NondecreasingFrom(graded, GradedVersions(rows, es, s)) <==> NoUndercutGraded(rows, es, s, graded, low)
    decreases |es|
  {
    if es != [] {
      var e, rows' := es[0], After(rows, es[0]);
      EventMoves(rows, e, s);
      StaysNumbered(rows, e);
      var rest := GradedVersions(rows', es[1..], s);
      if Grades(rows, e, s) {
        var v := PinnedVersion(rows, s);
        FirstOfRest(graded, v, rest);
        assert low <==> v < graded;
        if !low {
          DropsIffUndercutFrom(rows', es[1..], s, v, false);
        }
      } else {
        assert GradedVersions(rows, es, s) == rest;
        DropsIffUndercutFrom(rows', es[1..], s, graded,
                             Undercuts(rows, e, s, graded) || (low && HighestLocked(rows', s) < graded));
      }
    }
  }

  lemma FirstOfRest(graded: nat, v: nat, rest: seq<nat>)
    ensures NondecreasingFrom(graded, [v] + rest) <==> graded <= v && NondecreasingFrom(v, rest)
  {
    var all := [v] + rest;
    assert forall i :: 0 <= i < |rest| ==> all[i + 1] == rest[i];
    if NondecreasingFrom(graded, all) {
      assert all[0] == v;
    }
  }

  // Exactly when the versions graded against never go down, in any run of
  // imports, explicit locks and gradings whose locks may fail.
  lemma NeverDropsIffNoUndercut(rows: seq<GuideRow>, es: seq<Event>, s: Scope)
    requires Numbered(rows) && LegalRun(rows, es)
    ensures NondecreasingFrom(0, GradedVersions(rows, es, s)) <==> NoUndercutGraded(rows, es, s, 0, false)
  {
    DropsIffUndercutFrom(rows, es, s, 0, false);
  }

  // So failing locks alone never do it: it takes an explicit lock.
  lemma {:induction false} NoLockNoUndercut(rows: seq<GuideRow>, es: seq<Event>, s: Scope, graded: nat)
    requires forall i :: 0 <= i < |es| ==> !es[i].ExplicitLock?
    ensures NoUndercutGraded(rows, es, s, graded, false)
    decreases |es|
  {
    if es != [] {
      var v := if Grades(rows, es[0], s) then PinnedVersion(rows, s) else graded;
      NoLockNoUndercut(After(rows, es[0]), es[1..], s, v);
    }
  }

  lemma FailingLocksNeverDrop(rows: seq<GuideRow>, es: seq<Event>, s: Scope)
    requires Numbered(rows) && LegalRun(rows, es)
    requires forall i :: 0 <= i < |es| ==> !es[i].ExplicitLock?
    ensures NondecreasingFrom(0, GradedVersions(rows, es, s))
  {
    NoLockNoUndercut(rows, es, s, 0);
    NeverDropsIffNoUndercut(rows, es, s);
  }

  // A lock that fails is only logged. It leaves room for an explicit lock of an
  // older version, and that takes the next grading back to it.
  lemma FailedLockCanDrop(content: string)
    ensures var s: Scope := (0, 0);
            var rows := [GuideRow(s, 1, content, false), GuideRow(s, 2, content, false)];
            var es := [Pin(s, Fails, 1), ExplicitLock(0, 0), Pin(s, Succeeds, 0)];
            LegalRun(rows, es) && GradedVersions(rows, es, s) == [2, 1]
  {
    var s: Scope := (0, 0);
    var a, b := GuideRow(s, 1, content, false), GuideRow(s, 2, content, false);
    var rows, rows' := [a, b], [a.(locked := true), b];
    var es := [Pin(s, Fails, 1), ExplicitLock(0, 0), Pin(s, Succeeds, 0)];
    TwoRows(a, b, s);
    TwoRows(a.(locked := true), b, s);
    assert es[1..] == [es[1], es[2]] && es[1..][1..] == [es[2]] && [es[2]][1..] == [];
    assert After(rows, es[0]) == rows && After(rows, es[1]) == rows' && After(rows', es[2]) == rows';
    assert LegalRun(rows', [es[2]]) && GradedVersions(rows', [es[2]], s) == [1];
    assert LegalRun(rows, es[1..]) && GradedVersions(rows, es[1..], s) == [1];
  }

  lemma TwoRows(a: GuideRow, b: GuideRow, s: Scope)
    requires a.scope == b.scope == s && a.version == 1 && b.version == 2 && !b.locked
    ensures VersionsOf([a, b], s) == [1, 2] && MaxVersion([a, b], s) == 2
    ensures HighestLocked([a, b], s) == if a.locked then 1 else 0
  {
    assert [a, b][..1] == [a] && [a][..0] == [];
    assert VersionsOf([a], s) == [1] && MaxVersion([a], s) == 1;
    assert HighestLocked([a], s) == if a.locked then 1 else 0;
  }
}
