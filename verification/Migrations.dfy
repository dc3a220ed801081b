/**
 * The standalone migration runner (apps/api/scripts/migrate.mjs).
 *
 * A migration is a partial function on schemas: `None` is SQL that fails. The files
 * are the sorted listing of the migrations directory, without repetitions.
 */
module Migrations {
  import opened Options

  type Sql<!S> = (string, S) -> Option<S>

  predicate Distinct(files: seq<string>) {
    forall i, j :: 0 <= i < j < |files| ==> files[i] != files[j]
  }

  /** Running the files one after the other. */
  function Replay<S>(sql: Sql<S>, files: seq<string>, schema: S): Option<S> {
    if files == [] then Some(schema)
    else match Replay(sql, files[..|files| - 1], schema)
      case None => None
      case Some(s) => sql(files[|files| - 1], s)
  }

  // ---- One runner on its own ----

  /** The files a run has yet to apply. */
  function Pending(files: seq<string>, tracked: seq<string>): (r: seq<string>)
    ensures forall f :: f in r <==> f in files && f !in tracked
  {
    if files == [] then []
    else
      var n := |files| - 1;
      Pending(files[..n], tracked) + if files[n] in tracked then [] else [files[n]]
  }

  class Database<S> {
    /** The primary keys of `schema_migration`, in the order of their commits. */
    var tracked: seq<string>
    var schema: S

    constructor (schema: S)
      ensures tracked == [] && this.schema == schema
    {
      tracked := [];
      this.schema := schema;
    }

    /** Applies every pending file in order and stops at the first that fails, leaving it unapplied. */
    method Migrate(files: seq<string>, sql: Sql<S>) returns (ok: bool)
      requires Distinct(files)
      modifies this
      ensures ok ==> HasApplied(sql, Pending(files, old(tracked)), old(tracked), old(schema), tracked, schema)
      ensures !ok ==>
                exists k | 0 <= k < |Pending(files, old(tracked))| ::
                  && HasApplied(sql, Pending(files, old(tracked))[..k], old(tracked), old(schema), tracked, schema)
                  && sql(Pending(files, old(tracked))[k], schema) == None
    {
      ghost var before, start := tracked, schema;
      ghost var done: seq<string> := [];
      for i := 0 to |files|
        invariant done == Pending(files[..i], before)
        invariant HasApplied(sql, done, before, start, tracked, schema)
      {
        var file := files[i];
        PendingStep(files, i, before);
        if file !in tracked {
          var after := sql(file, schema);
          if after.None? {
            assert Pending(files, before)[..|done|] == done && Pending(files, before)[|done|] == file;
            return false;
          }
          AppliesOneMore(sql, done, file, before, start, tracked, schema);
          schema := after.value;
          tracked := tracked + [file];
          done := done + [file];
        }
      }
      assert files[..|files|] == files;
      return true;
    }
  }

  /** Exactly `files` have been applied, in order, to `before` and `start`. */
  ghost predicate HasApplied<S>(sql: Sql<S>, files: seq<string>, before: seq<string>, start: S,
                                tracked: seq<string>, schema: S) {
    tracked == before + files && Replay(sql, files, start) == Some(schema)
  }

  lemma AppliesOneMore<S>(sql: Sql<S>, files: seq<string>, file: string, before: seq<string>, start: S,
                          tracked: seq<string>, schema: S)
    requires HasApplied(sql, files, before, start, tracked, schema) && sql(file, schema).Some?
    ensures HasApplied(sql, files + [file], before, start, tracked + [file], sql(file, schema).value)
  {}

  /** Looking at one more file. */
  lemma PendingStep(files: seq<string>, i: nat, tracked: seq<string>)
    requires Distinct(files) && i < |files|
    ensures var done, all := Pending(files[..i], tracked), Pending(files, tracked);
            && Pending(files[..i + 1], tracked) == done + (if files[i] in tracked then [] else [files[i]])
            && (files[i] in tracked + done <==> files[i] in tracked)
            && (files[i] !in tracked ==> |done| < |all| && all[..|done|] == done && all[|done|] == files[i])
  {
    PendingOneMore(files, i, tracked);
    assert files[i] !in files[..i];
    PendingPrefix(files, i + 1, tracked);
    var done, all := Pending(files[..i], tracked), Pending(files, tracked);
    if files[i] !in tracked { NextOfPrefix(done, files[i], all); }
  }

  lemma PendingOneMore(files: seq<string>, i: nat, tracked: seq<string>)
    requires i < |files|
    ensures Pending(files[..i + 1], tracked) ==
            Pending(files[..i], tracked) + (if files[i] in tracked then [] else [files[i]])
  {
    assert files[..i + 1][..i] == files[..i];
  }

  lemma NextOfPrefix(done: seq<string>, file: string, all: seq<string>)
    requires done + [file] <= all
    ensures |done| < |all| && all[..|done|] == done && all[|done|] == file
  {
    assert (done + [file])[|done|] == file;
  }

  lemma {:induction false} PendingPrefix(files: seq<string>, i: nat, tracked: seq<string>)
    requires i <= |files|
    ensures Pending(files[..i], tracked) <= Pending(files, tracked)
  {
    if i < |files| {
      PendingPrefix(files[..|files| - 1], i, tracked);
      assert files[..|files| - 1][..i] == files[..i];
    } else {
      assert files[..i] == files;
    }
  }

  lemma {:induction false} NothingPending(files: seq<string>, tracked: seq<string>)
    ensures Pending(files, tracked) == [] <==> forall f :: f in files ==> f in tracked
  {
    if files != [] {
      NothingPending(files[..|files| - 1], tracked);
      assert files == files[..|files| - 1] + [files[|files| - 1]];
    }
  }

  /** A run after a completed run changes nothing. */
  lemma RerunIsIdle(files: seq<string>, tracked: seq<string>)
    ensures Pending(files, tracked + Pending(files, tracked)) == []
  {
    NothingPending(files, tracked + Pending(files, tracked));
  }

  // ---- The order of an upgrade ----

  /** The order of `Array.prototype.sort` on names without surrogates. */
  predicate SortsBefore(a: string, b: string) {
    if b == [] then false
    else if a == [] then true
    else a[0] < b[0] || (a[0] == b[0] && SortsBefore(a[1..], b[1..]))
  }

  predicate Sorted(files: seq<string>) {
    forall i, j :: 0 <= i < j < |files| ==> SortsBefore(files[i], files[j])
  }

  lemma {:induction false} SortsTransitively(a: string, b: string, c: string)
    requires SortsBefore(a, b) && SortsBefore(b, c)
    ensures SortsBefore(a, c)
  {
    if a != [] && a[0] == b[0] == c[0] { SortsTransitively(a[1..], b[1..], c[1..]); }
  }

  lemma {:induction false} SortsOneWay(a: string, b: string)
    ensures !(SortsBefore(a, b) && SortsBefore(b, a))
  {
    if a != [] && b != [] { SortsOneWay(a[1..], b[1..]); }
  }

  /** Of two different names one sorts first. */
  lemma {:induction false} SortsSomeWay(a: string, b: string)
    requires a != b
    ensures SortsBefore(a, b) || SortsBefore(b, a)
  {
    if a != [] && b != [] && a[0] == b[0] {
      assert a == [a[0]] + a[1..] && b == [b[0]] + b[1..];
      SortsSomeWay(a[1..], b[1..]);
    }
  }

  lemma SortedIsDistinct(files: seq<string>)
    requires Sorted(files)
    ensures Distinct(files)
  {
    forall i, j | 0 <= i < j < |files| ensures files[i] != files[j] { SortsOneWay(files[i], files[j]); }
  }

  ghost predicate SameFiles(a: seq<string>, b: seq<string>) {
    forall f :: f in a <==> f in b
  }

  /** Nothing sorts before the first file of a sorted list. */
  lemma FirstSortsFirst(files: seq<string>, f: string)
    requires Sorted(files) && f in files
    ensures f == files[0] || (SortsBefore(files[0], f) && f in files[1..])
  {
    var i :| 0 <= i < |files| && files[i] == f;
    if i > 0 { assert files[1..][i - 1] == f; }
  }

  lemma TailKeepsFiles(a: seq<string>, b: seq<string>)
    requires Sorted(a) && Sorted(b) && SameFiles(a, b) && a != [] && b != [] && a[0] == b[0]
    ensures SameFiles(a[1..], b[1..])
  {
    SortedIsDistinct(a);
    SortedIsDistinct(b);
    forall f ensures f in a[1..] <==> f in b[1..] {
      if f in a[1..] { assert f in a && f in b; FirstSortsFirst(b, f); }
      if f in b[1..] { assert f in a && f in b; FirstSortsFirst(a, f); }
    }
  }

  /** There is one way to sort a set of files. */
  lemma {:induction false} SortedOnce(a: seq<string>, b: seq<string>)
    requires Sorted(a) && Sorted(b) && SameFiles(a, b)
    ensures a == b
    decreases |a|
  {
    assert b != [] ==> b[0] in b;
    if a != [] {
      assert a[0] in a && a[0] in b && b[0] in b && b[0] in a;
      FirstSortsFirst(a, b[0]);
      FirstSortsFirst(b, a[0]);
      SortsOneWay(a[0], b[0]);
      TailKeepsFiles(a, b);
      SortedOnce(a[1..], b[1..]);
    }
  }

  lemma {:induction false} PendingIsSorted(files: seq<string>, tracked: seq<string>)
    requires Sorted(files)
    ensures Sorted(Pending(files, tracked))
  {
    if files != [] {
      var n := |files| - 1;
      PendingIsSorted(files[..n], tracked);
      var before := Pending(files[..n], tracked);
      forall i | 0 <= i < |before| ensures SortsBefore(before[i], files[n]) {
        assert before[i] in before && before[i] in files[..n];
      }
    }
  }

  /** The order in which an upgraded database has run the files. */
  function UpgradeOrder(files: seq<string>, grown: seq<string>): seq<string> {
    files + Pending(grown, files)
  }

  ghost predicate NewSortsAfterOld(files: seq<string>, grown: seq<string>) {
    forall old_, new_ :: old_ in files && new_ in grown && new_ !in files ==> SortsBefore(old_, new_)
  }

  lemma UpgradeInOrder(files: seq<string>, grown: seq<string>)
    requires Sorted(files) && Sorted(grown) && (forall f :: f in files ==> f in grown)
    requires NewSortsAfterOld(files, grown)
    ensures UpgradeOrder(files, grown) == grown
  {
    var added := Pending(grown, files);
    PendingIsSorted(grown, files);
    forall i, j | 0 <= i < j < |files + added| ensures SortsBefore((files + added)[i], (files + added)[j]) {
      if i < |files| <= j { assert files[i] in files && added[j - |files|] in added; }
    }
    SortedOnce(files + added, grown);
  }

  /**
   * An upgraded database has run the files in the order a fresh one runs them exactly
   * when every new file sorts after every old one.
   */
  lemma UpgradeOrderIsFresh(files: seq<string>, grown: seq<string>)
    requires Sorted(files) && Sorted(grown) && forall f :: f in files ==> f in grown
    ensures UpgradeOrder(files, grown) == grown <==> NewSortsAfterOld(files, grown)
  {
    if NewSortsAfterOld(files, grown) { UpgradeInOrder(files, grown); }
    if UpgradeOrder(files, grown) == grown {
      forall k | 0 <= k < |files| ensures grown[k] in files { assert grown[k] == files[k]; }
      forall old_, new_ | old_ in files && new_ in grown && new_ !in files ensures SortsBefore(old_, new_) {
        var i :| 0 <= i < |files| && files[i] == old_;
        var j :| 0 <= j < |grown| && grown[j] == new_;
        assert grown[i] == files[i];
      }
    }
  }

  /** The tenth file of a numbered list sorts before the second, so an upgrade that brings it runs out of order. */
  lemma TenthFileRunsOutOfOrder(files: seq<string>, grown: seq<string>, two: string, ten: string)
    requires Sorted(files) && Sorted(grown) && forall f :: f in files ==> f in grown
    requires two in files && ten in grown && ten !in files && "2_" <= two && "10_" <= ten
    ensures SortsBefore(ten, two) && UpgradeOrder(files, grown) != grown
  {
    assert ten[0] == '1' && two[0] == '2';
    SortsOneWay(ten, two);
    UpgradeOrderIsFresh(files, grown);
  }

  // ---- Any number of runners ----

  datatype Runner<S> =
    | Ready(i: nat)                                 // about to look file i up
    | Untracked(i: nat, seen: nat)                  // found it missing when `seen` files were committed
    | Ran(i: nat, seen: nat, local: S)              // has run its SQL inside a transaction
    | Recorded(i: nat, seen: nat, local: S)         // has inserted the tracking row, uncommitted
    | Finished
    | Stopped                                       // failed or crashed; its transaction is rolled back

  datatype World<S> = World(tracked: seq<string>, schema: S, runners: map<nat, Runner<S>>)

  /** `merged` is what a commit over foreign changes would leave. */
  datatype Action<S> =
    | Start(r: nat)
    | Go(r: nat, merged: S)
    | Crash(r: nat)

  function Put<S>(w: World<S>, r: nat, p: Runner<S>): World<S> {
    w.(runners := w.runners[r := p])
  }

  /** Nobody else holds an uncommitted tracking row for the file. */
  ghost predicate Unlocked<S>(w: World<S>, files: seq<string>, r: nat, i: nat) {
    i < |files| &&
    forall q :: q in w.runners && q != r && w.runners[q].Recorded? && w.runners[q].i < |files|
      ==> files[w.runners[q].i] != files[i]
  }

  ghost predicate Enabled<S>(w: World<S>, files: seq<string>, a: Action<S>) {
    match a
    case Start(r) => r !in w.runners
    case Go(r, _) =>
      && r in w.runners && !w.runners[r].Finished? && !w.runners[r].Stopped?
      && (w.runners[r].Ran? ==> w.runners[r].i < |files| ==>
            files[w.runners[r].i] in w.tracked || Unlocked(w, files, r, w.runners[r].i))
    case Crash(r) => r in w.runners && !w.runners[r].Finished?
  }

  function Step<S>(w: World<S>, sql: Sql<S>, files: seq<string>, a: Action<S>): World<S> {
    match a
    case Start(r) => Put(w, r, Ready(0))
    case Crash(r) => Put(w, r, Stopped)
    case Go(r, merged) =>
      if r !in w.runners then w
      else
        match w.runners[r]
        case Ready(i) =>
          if i >= |files| then Put(w, r, Finished)
          else if files[i] in w.tracked then Put(w, r, Ready(i + 1))
          else Put(w, r, Untracked(i, |w.tracked|))
        case Untracked(i, seen) =>
          if i >= |files| then Put(w, r, Stopped)
          else
            (match sql(files[i], w.schema)
             case None => Put(w, r, Stopped)
             case Some(local) => Put(w, r, Ran(i, seen, local)))
        case Ran(i, seen, local) =>
          if i >= |files| || files[i] in w.tracked then Put(w, r, Stopped)
          else Put(w, r, Recorded(i, seen, local))
        case Recorded(i, seen, local) =>
          if i >= |files| then Put(w, r, Stopped)
          else
            Put(World(w.tracked + [files[i]], if |w.tracked| == seen then local else merged, w.runners), r, Ready(i + 1))
        case Finished => w
        case Stopped => w
  }

  ghost predicate Leads<S>(w: World<S>, sql: Sql<S>, files: seq<string>, actions: seq<Action<S>>, w': World<S>)
    decreases |actions|
  {
    if actions == [] then w' == w
    else Enabled(w, files, actions[0]) && Leads(Step(w, sql, files, actions[0]), sql, files, actions[1..], w')
  }

  /** The committed files are a prefix of the list, and the schema is its replay. */
  ghost predicate IsPrefix<S>(w: World<S>, sql: Sql<S>, files: seq<string>, initial: S) {
    w.tracked <= files && Replay(sql, w.tracked, initial) == Some(w.schema)
  }

  ghost predicate RunnerOk<S>(w: World<S>, sql: Sql<S>, files: seq<string>, p: Runner<S>) {
    var n := |w.tracked|;
    match p
    case Ready(i) => i <= n
    case Untracked(i, seen) => i == seen <= n && i < |files|
    case Ran(i, seen, local) => i == seen <= n && i < |files| && (i == n ==> sql(files[i], w.schema) == Some(local))
    case Recorded(i, seen, local) => i == seen == n && i < |files| && sql(files[i], w.schema) == Some(local)
    case Finished => n == |files|
    case Stopped => true
  }

  ghost predicate Inv<S>(w: World<S>, sql: Sql<S>, files: seq<string>, initial: S) {
    && IsPrefix(w, sql, files, initial)
    && (forall r :: r in w.runners ==> RunnerOk(w, sql, files, w.runners[r]))
    && (forall r, q :: r in w.runners && q in w.runners && w.runners[r].Recorded? && w.runners[q].Recorded? ==> r == q)
  }

  lemma UntrackedIsNext<S>(w: World<S>, sql: Sql<S>, files: seq<string>, initial: S, i: nat)
    requires Distinct(files) && IsPrefix(w, sql, files, initial) && i <= |w.tracked| && i < |files|
    ensures files[i] !in w.tracked <==> i == |w.tracked|
  {}

  /** A runner moves on while the committed state stays. */
  lemma Moves<S>(w: World<S>, sql: Sql<S>, files: seq<string>, initial: S, r: nat, p: Runner<S>)
    requires Inv(w, sql, files, initial) && RunnerOk(w, sql, files, p)
    requires p.Recorded? ==> forall q :: q in w.runners && q != r ==> !w.runners[q].Recorded?
    ensures Inv(Put(w, r, p), sql, files, initial)
  {}

  /** A commit extends the prefix by the next file, over exactly the state its SQL ran on. */
  lemma Commits<S>(w: World<S>, sql: Sql<S>, files: seq<string>, initial: S, r: nat, merged: S)
    requires Inv(w, sql, files, initial) && r in w.runners && w.runners[r].Recorded?
    ensures var w' := Step(w, sql, files, Go(r, merged));
            && Inv(w', sql, files, initial)
            && w'.tracked == files[..|w.tracked| + 1]
            && sql(files[|w.tracked|], w.schema) == Some(w'.schema)
  {
    var w' := Step(w, sql, files, Go(r, merged));
    assert RunnerOk(w, sql, files, w.runners[r]);
    CommitIsReplayed(w, sql, files, initial, w.runners[r].local, w');
    CommitKeepsRunners(w, sql, files, initial, r, w');
  }

  lemma CommitKeepsRunners<S>(w: World<S>, sql: Sql<S>, files: seq<string>, initial: S, r: nat, w': World<S>)
    requires Inv(w, sql, files, initial) && r in w.runners && w.runners[r].Recorded?
    requires |w'.tracked| == |w.tracked| + 1 <= |files| && w'.runners == w.runners[r := Ready(|w'.tracked|)]
    ensures forall q :: q in w'.runners ==> RunnerOk(w', sql, files, w'.runners[q]) && !w'.runners[q].Recorded?
  {
    forall q | q in w'.runners && q != r ensures RunnerOk(w', sql, files, w'.runners[q]) && !w'.runners[q].Recorded? {
      assert RunnerOk(w, sql, files, w.runners[q]) && !w.runners[q].Recorded?;
      OthersStayOk(w, sql, files, w.runners[q], w');
    }
  }

  lemma CommitIsReplayed<S>(w: World<S>, sql: Sql<S>, files: seq<string>, initial: S, local: S, w': World<S>)
    requires IsPrefix(w, sql, files, initial) && |w.tracked| < |files|
    requires sql(files[|w.tracked|], w.schema) == Some(local)
    requires w'.tracked == w.tracked + [files[|w.tracked|]] && w'.schema == local
    ensures IsPrefix(w', sql, files, initial) && w'.tracked == files[..|w.tracked| + 1]
  {
    assert w'.tracked[..|w.tracked|] == w.tracked;
  }

  /** Whoever has recorded nothing may find one more file committed. */
  lemma OthersStayOk<S>(w: World<S>, sql: Sql<S>, files: seq<string>, p: Runner<S>, w': World<S>)
    requires RunnerOk(w, sql, files, p) && !p.Recorded? && |w'.tracked| == |w.tracked| + 1 <= |files|
    ensures RunnerOk(w', sql, files, p)
  {}

  lemma StepKeeps<S>(w: World<S>, sql: Sql<S>, files: seq<string>, initial: S, a: Action<S>)
    requires Distinct(files) && Inv(w, sql, files, initial) && Enabled(w, files, a)
    ensures Inv(Step(w, sql, files, a), sql, files, initial)
    ensures w.tracked <= Step(w, sql, files, a).tracked
  {
    match a
    case Start(r) => Moves(w, sql, files, initial, r, Ready(0));
    case Crash(r) => Moves(w, sql, files, initial, r, Stopped);
    case Go(r, merged) =>
      var p := w.runners[r];
      assert RunnerOk(w, sql, files, p);
      if p.Recorded? {
        Commits(w, sql, files, initial, r, merged);
      } else {
        if (p.Ready? && p.i < |files|) || p.Ran? {
          UntrackedIsNext(w, sql, files, initial, p.i);
        }
        if p.Ran? && files[p.i] !in w.tracked {
          forall q | q in w.runners && q != r ensures !w.runners[q].Recorded? {
            assert RunnerOk(w, sql, files, w.runners[q]);
          }
        }
        Moves(w, sql, files, initial, r, Step(w, sql, files, a).runners[r]);
      }
  }

  lemma {:induction false} RunKeeps<S>(w: World<S>, sql: Sql<S>, files: seq<string>, initial: S,
                                       actions: seq<Action<S>>, w': World<S>)
    requires Distinct(files) && Inv(w, sql, files, initial) && Leads(w, sql, files, actions, w')
    ensures Inv(w', sql, files, initial) && w.tracked <= w'.tracked
    decreases |actions|
  {
    if actions != [] {
      StepKeeps(w, sql, files, initial, actions[0]);
      RunKeeps(Step(w, sql, files, actions[0]), sql, files, initial, actions[1..], w');
    }
  }

  /**
   * Any number of runners, interleaved and crashing anywhere, on a database that holds
   * a replayed prefix: it always does, each file committed once and in order; a runner
   * that finishes leaves the whole list applied.
   */
  lemma ConcurrentRunners<S>(start: World<S>, sql: Sql<S>, files: seq<string>, initial: S,
                             actions: seq<Action<S>>, w: World<S>)
    requires Distinct(files) && IsPrefix(start, sql, files, initial) && start.runners == map[]
    requires Leads(start, sql, files, actions, w)
    ensures start.tracked <= w.tracked <= files
    ensures Distinct(w.tracked)
    ensures Replay(sql, w.tracked, initial) == Some(w.schema)
    ensures (exists r :: r in w.runners && w.runners[r].Finished?) ==>
            w.tracked == files && Replay(sql, files, initial) == Some(w.schema)
  {
    RunKeeps(start, sql, files, initial, actions, w);
    if r :| r in w.runners && w.runners[r].Finished? {
      assert RunnerOk(w, sql, files, w.runners[r]);
    }
  }

  // ---- A runner can always finish ----

  ghost predicate NobodyRecorded<S>(w: World<S>) {
    forall q :: q in w.runners ==> !w.runners[q].Recorded?
  }

  lemma {:induction false} ReplayPrefix<S>(sql: Sql<S>, files: seq<string>, k: nat, schema: S)
    requires k <= |files| && Replay(sql, files, schema).Some?
    ensures Replay(sql, files[..k], schema).Some?
    decreases |files|
  {
    if k < |files| {
      ReplayPrefix(sql, files[..|files| - 1], k, schema);
      assert files[..|files| - 1][..k] == files[..k];
    } else {
      assert files[..k] == files;
    }
  }

  /** The SQL of the next file succeeds on the schema as it is. */
  lemma NextSucceeds<S>(w: World<S>, sql: Sql<S>, files: seq<string>, initial: S)
    requires IsPrefix(w, sql, files, initial) && |w.tracked| < |files| && Replay(sql, files, initial).Some?
    ensures sql(files[|w.tracked|], w.schema).Some?
  {
    var n := |w.tracked|;
    ReplayPrefix(sql, files, n + 1, initial);
    assert files[..n + 1][..n] == w.tracked && files[..n + 1][n] == files[n];
  }

  lemma LeadsByOne<S>(w: World<S>, sql: Sql<S>, files: seq<string>, a: Action<S>)
    requires Enabled(w, files, a)
    ensures Leads(w, sql, files, [a], Step(w, sql, files, a))
  {
    assert [a][1..] == [] && Leads(Step(w, sql, files, a), sql, files, [], Step(w, sql, files, a));
  }

  lemma {:induction false} LeadsOn<S>(a: World<S>, sql: Sql<S>, files: seq<string>, first: seq<Action<S>>, b: World<S>,
                                      second: seq<Action<S>>, c: World<S>)
    requires Leads(a, sql, files, first, b) && Leads(b, sql, files, second, c)
    ensures Leads(a, sql, files, first + second, c)
    decreases |first|
  {
    if first == [] {
      assert first + second == second;
    } else {
      LeadsOn(Step(a, sql, files, first[0]), sql, files, first[1..], b, second, c);
      assert (first + second)[1..] == first[1..] + second;
    }
  }

  /** What a runner alone at work does with one file. */
  lemma PassesFile<S>(w: World<S>, sql: Sql<S>, files: seq<string>, initial: S, r: nat, i: nat)
      returns (actions: seq<Action<S>>, w': World<S>)
    requires Distinct(files) && Inv(w, sql, files, initial) && NobodyRecorded(w) && Replay(sql, files, initial).Some?
    requires r in w.runners && w.runners[r] == Ready(i) && i < |files|
    ensures Leads(w, sql, files, actions, w') && Inv(w', sql, files, initial) && NobodyRecorded(w')
    ensures r in w'.runners && w'.runners[r] == Ready(i + 1)
  {
    var go := Go(r, w.schema);
    assert RunnerOk(w, sql, files, w.runners[r]);
    UntrackedIsNext(w, sql, files, initial, i);
    if files[i] in w.tracked {
      StepKeeps(w, sql, files, initial, go);
      LeadsByOne(w, sql, files, go);
      actions, w' := [go], Step(w, sql, files, go);
    } else {
      NextSucceeds(w, sql, files, initial);
      var local := sql(files[i], w.schema).value;
      w' := AppliesFile(w, sql, files, r, i, local);
      actions := [go, go, go, go];
      RunKeeps(w, sql, files, initial, actions, w');
    }
  }

  /** Lookup, SQL, tracking row and commit. */
  lemma AppliesFile<S>(w: World<S>, sql: Sql<S>, files: seq<string>, r: nat, i: nat, local: S) returns (w': World<S>)
    requires r in w.runners && w.runners[r] == Ready(i) && i == |w.tracked| < |files| && files[i] !in w.tracked
    requires NobodyRecorded(w) && sql(files[i], w.schema) == Some(local)
    ensures var go := Go(r, w.schema); Leads(w, sql, files, [go, go, go, go], w')
    ensures w' == Put(World(w.tracked + [files[i]], local, w.runners), r, Ready(i + 1))
  {
    var go := Go(r, w.schema);
    var w1 := Put(w, r, Untracked(i, i));
    var w2 := Put(w, r, Ran(i, i, local));
    var w3 := Put(w, r, Recorded(i, i, local));
    w' := Put(World(w.tracked + [files[i]], local, w.runners), r, Ready(i + 1));
    GoesOn(w, sql, files, r);
    GoesOn(w1, sql, files, r);
    GoesOn(w2, sql, files, r);
    GoesOn(w3, sql, files, r);
    assert w1 == Step(w, sql, files, go) && w2 == Step(w1, sql, files, go) && w3 == Step(w2, sql, files, go);
    assert w' == Step(w3, sql, files, go);
    assert [go, go, go, go][1..] == [go, go, go] && [go, go, go][1..] == [go, go] && [go, go][1..] == [go];
    LeadsByOne(w3, sql, files, go);
    assert Leads(w2, sql, files, [go, go], w');
    assert Leads(w1, sql, files, [go, go, go], w');
  }

  lemma GoesOn<S>(w: World<S>, sql: Sql<S>, files: seq<string>, r: nat)
    requires r in w.runners && !w.runners[r].Finished? && !w.runners[r].Stopped?
    requires forall q :: q in w.runners && q != r ==> !w.runners[q].Recorded?
    ensures forall merged :: Enabled(w, files, Go(r, merged))
  {}

  lemma {:induction false} LoneRunnerFinishes<S>(w: World<S>, sql: Sql<S>, files: seq<string>, initial: S, r: nat, i: nat)
      returns (actions: seq<Action<S>>, w': World<S>)
    requires Distinct(files) && Inv(w, sql, files, initial) && NobodyRecorded(w) && Replay(sql, files, initial).Some?
    requires r in w.runners && w.runners[r] == Ready(i)
    ensures Leads(w, sql, files, actions, w') && Inv(w', sql, files, initial)
    ensures r in w'.runners && w'.runners[r].Finished?
    decreases if i < |files| then |files| - i else 0
  {
    if i < |files| {
      var first, mid := PassesFile(w, sql, files, initial, r, i);
      var rest;
      rest, w' := LoneRunnerFinishes(mid, sql, files, initial, r, i + 1);
      actions := first + rest;
      LeadsOn(w, sql, files, first, mid, rest, w');
    } else {
      var go := Go(r, w.schema);
      StepKeeps(w, sql, files, initial, go);
      LeadsByOne(w, sql, files, go);
      actions, w' := [go], Step(w, sql, files, go);
    }
  }

  /** A runner that has not finished can crash at any point, and what was committed stays. */
  lemma AnyRunnerCanCrash<S>(w: World<S>, sql: Sql<S>, files: seq<string>, r: nat)
    requires r in w.runners && !w.runners[r].Finished?
    ensures Enabled(w, files, Crash(r)) && Step(w, sql, files, Crash(r)) == Put(w, r, Stopped)
  {}

  /** Whoever has recorded a file can commit it. */
  lemma RecordedCommits<S>(w: World<S>, sql: Sql<S>, files: seq<string>, initial: S)
      returns (actions: seq<Action<S>>, w': World<S>)
    requires Distinct(files) && Inv(w, sql, files, initial)
    ensures Leads(w, sql, files, actions, w') && Inv(w', sql, files, initial) && NobodyRecorded(w')
    ensures w'.runners.Keys == w.runners.Keys
  {
    if NobodyRecorded(w) {
      actions, w' := [], w;
    } else {
      var q :| q in w.runners && w.runners[q].Recorded?;
      var go := Go(q, w.schema);
      w' := Step(w, sql, files, go);
      StepKeeps(w, sql, files, initial, go);
      LeadsByOne(w, sql, files, go);
      CommitFrees(w, sql, files, initial, q);
      actions := [go];
    }
  }

  lemma CommitFrees<S>(w: World<S>, sql: Sql<S>, files: seq<string>, initial: S, q: nat)
    requires Inv(w, sql, files, initial) && q in w.runners && w.runners[q].Recorded?
    ensures var w' := Step(w, sql, files, Go(q, w.schema));
            NobodyRecorded(w') && w'.runners.Keys == w.runners.Keys
  {
    assert RunnerOk(w, sql, files, w.runners[q]);
  }

  /**
   * Whatever runners have done and wherever they have stopped, as long as the files run
   * one after the other on a fresh database, a new runner can finish and leave all applied.
   */
  lemma NewRunnerCanFinish<S>(start: World<S>, sql: Sql<S>, files: seq<string>, initial: S,
                              before: seq<Action<S>>, w: World<S>, r: nat)
      returns (actions: seq<Action<S>>, w': World<S>)
    requires Distinct(files) && IsPrefix(start, sql, files, initial) && start.runners == map[]
    requires Leads(start, sql, files, before, w) && Replay(sql, files, initial).Some? && r !in w.runners
    ensures Leads(w, sql, files, actions, w') && r in w'.runners && w'.runners[r].Finished?
    ensures w'.tracked == files && Replay(sql, files, initial) == Some(w'.schema)
  {
    RunKeeps(start, sql, files, initial, before, w);
    var first, free := RecordedCommits(w, sql, files, initial);
    StepKeeps(free, sql, files, initial, Start(r));
    LeadsByOne(free, sql, files, Start(r));
    var ready := Step(free, sql, files, Start(r));
    LeadsOn(w, sql, files, first, free, [Start(r)], ready);
    var rest;
    rest, w' := LoneRunnerFinishes(ready, sql, files, initial, r, 0);
    actions := first + [Start(r)] + rest;
    LeadsOn(w, sql, files, first + [Start(r)], ready, rest, w');
    assert RunnerOk(w', sql, files, w'.runners[r]);
  }
}
