/**
 The HDFS upload script, run by any number of hosts at once: each tries to create a lock
 directory, waits for or takes over an existing one, uploads, and releases the lock. One
 move is one shell command of one process, or the passing of time.
*/
module UploadLock {
  import opened Prelude

  /** Seconds a lock is honoured, and the margin added to a wait. */
  const TIMEOUT := 240
  const MARGIN := 5

  /** How a process got past `lock`: with the directory, or after a wait. */
  datatype Entry = Created | Released

  /** The next command of a process. */
  datatype Pc =
    | Guard                  // test the target before doing anything
    | TryLock                // mkdir of the lock
    | ReadClock              // the lock exists: read the time
    | ReadLock(now: nat)     // read the creation time of the lock
    | Sleeping(until: nat)
    | TestLock               // is the lock still there?
    | TestTarget             // is the target there?
    | TakeOver               // remove the expired lock
    | Uploading(via: Entry)  // copy the file
    | Copied(via: Entry)     // test the target
    | Verified(via: Entry)   // remove the lock
    | Done | Skipped | Failed

  /** `owner` is bookkeeping: no command reads it. Times are in milliseconds. */
  datatype Lock = Lock(created: nat, owner: nat)
  datatype World = World(clock: nat, lock: Option<Lock>, target: bool, procs: seq<Pc>)

  /** What the environment decides: a command works, the host stops, or the copy lands under another name. */
  datatype Choice = Works | Stops | Elsewhere
  datatype Move = Tick(ms: nat) | Act(i: nat, choice: Choice)

  function Seconds(ms: nat): nat {
    ms / 1000
  }

  /** `$timeout - $crdate + $now + 5`. */
  function SleepTime(now: nat, created: nat): int {
    TIMEOUT - Seconds(created) + now + MARGIN
  }

  /** The lock read by the process is too old to be honoured. */
  predicate IsExpired(now: nat, created: nat) {
    now - Seconds(created) > TIMEOUT
  }

  /** A missing lock makes the arithmetic fail, which ends the script: its commands are one group. */
  function AfterReadLock(w: World, now: nat): Pc {
    if w.lock.None? then Failed
    else if IsExpired(now, w.lock.value.created) then TakeOver
    else if SleepTime(now, w.lock.value.created) < 0 then Failed
    else Sleeping(w.clock + 1000 * SleepTime(now, w.lock.value.created))
  }

  function Goto(w: World, i: nat, pc: Pc): World
    requires i < |w.procs|
  {
    w.(procs := w.procs[i := pc])
  }

  /** The effect of the next command of process `i`. */
  function Command(w: World, i: nat, choice: Choice): World
    requires i < |w.procs|
  {
    match w.procs[i]
    case Guard => Goto(w, i, if w.target then Skipped else TryLock)
    case TryLock =>
      if w.lock.None? then Goto(w.(lock := Some(Lock(w.clock, i))), i, Uploading(Created)) else Goto(w, i, ReadClock)
    case ReadClock => Goto(w, i, ReadLock(Seconds(w.clock)))
    case ReadLock(now) => Goto(w, i, AfterReadLock(w, now))
    case Sleeping(until) => if w.clock >= until then Goto(w, i, TestLock) else w
    case TestLock => Goto(w, i, if w.lock.Some? then Failed else TestTarget)
    case TestTarget => Goto(w, i, if w.target then Skipped else Uploading(Released))
    case TakeOver => if w.lock.None? then Goto(w, i, Failed) else Goto(w.(lock := None), i, TryLock)
    case Uploading(via) =>
      if w.target then Goto(w, i, Failed)
      else Goto(w.(target := choice != Elsewhere), i, Copied(via))
    case Copied(via) => Goto(w, i, if w.target then Verified(via) else Failed)
    case Verified(via) => if w.lock.None? then Goto(w, i, Failed) else Goto(w.(lock := None), i, Done)
    case Done => w
    case Skipped => w
    case Failed => w
  }

  function Next(w: World, m: Move): World {
    match m
    case Tick(ms) => w.(clock := w.clock + ms)
    case Act(i, choice) =>
      if i >= |w.procs| || w.procs[i] in {Done, Skipped, Failed} then w
      else if choice == Stops then Goto(w, i, Failed)
      else Command(w, i, choice)
  }

  function Run(w: World, moves: seq<Move>): World {
    if moves == [] then w else Next(Run(w, moves[..|moves| - 1]), moves[|moves| - 1])
  }

  /** Nobody has started; a lock may be left over from a process that is gone. */
  ghost predicate Start(w: World) {
    && (forall i :: 0 <= i < |w.procs| ==> w.procs[i] == Guard)
    && (w.lock.Some? ==> w.lock.value.owner >= |w.procs|)
  }

  /** The move finds a lock too old. */
  predicate FindsExpired(w: World, m: Move) {
    m.Act? && m.i < |w.procs| && w.procs[m.i].ReadLock? && w.lock.Some? && m.choice != Stops
    && IsExpired(w.procs[m.i].now, w.lock.value.created)
  }

  /** No move of the run finds an expired lock. */
  predicate Timely(w: World, moves: seq<Move>) {
    moves == [] ||
    (var front := moves[..|moves| - 1];
     Timely(w, front) && !FindsExpired(Run(w, front), moves[|moves| - 1]))
  }

  predicate InSection(pc: Pc) {
    pc.Uploading? || pc.Copied? || pc.Verified?
  }

  ghost predicate Holds(w: World, i: nat) {
    w.lock.Some? && w.lock.value.owner == i
  }

  // ----- every run

  /** A process that reports success, or that there was nothing to do, leaves the target in place. */
  ghost predicate Honest(w: World) {
    forall i :: 0 <= i < |w.procs| && (w.procs[i] in {Done, Skipped} || w.procs[i].Verified?) ==> w.target
  }

  lemma NextHonest(w: World, m: Move)
    requires Honest(w)
    ensures Honest(Next(w, m)) && |Next(w, m).procs| == |w.procs| && (w.target ==> Next(w, m).target)
  {
  }

  lemma {:induction false} ReportsAreTrue(w: World, moves: seq<Move>)
    requires Start(w)
    ensures Honest(Run(w, moves)) && |Run(w, moves).procs| == |w.procs|
  {
    if moves != [] {
      ReportsAreTrue(w, moves[..|moves| - 1]);
      NextHonest(Run(w, moves[..|moves| - 1]), moves[|moves| - 1]);
    }
  }

  // ----- runs in which no lock is found expired

  /** What one process may rely on while no lock expires. */
  ghost predicate Safe(w: World, i: nat)
    requires i < |w.procs|
  {
    match w.procs[i]
    case ReadClock => w.lock.Some? || w.target
    case ReadLock(_) => w.lock.Some? || w.target
    case Sleeping(_) => w.lock.Some? || w.target
    case TestLock => w.lock.Some? || w.target
    case TestTarget => w.target
    case TakeOver => false
    case Uploading(via) => via == Created && Holds(w, i)
    case Copied(via) => via == Created && Holds(w, i)
    case Verified(via) => via == Created && Holds(w, i) && w.target
    case Skipped => w.target
    case Done => w.target
    case _ => true
  }

  ghost predicate AllSafe(w: World) {
    forall i :: 0 <= i < |w.procs| ==> Safe(w, i)
  }

  lemma {:induction false} NextSafe(w: World, m: Move)
    requires AllSafe(w) && !FindsExpired(w, m)
    ensures AllSafe(Next(w, m))
  {
    var next := Next(w, m);
    forall j | 0 <= j < |next.procs|
      ensures Safe(next, j)
    {
      assert Safe(w, j);
      if m.Act? && m.i < |w.procs| {
        assert Safe(w, m.i);
      }
    }
  }

  lemma NextKeepsCount(w: World, m: Move)
    ensures |Next(w, m).procs| == |w.procs|
  {
  }

  lemma {:induction false} TimelyIsSafe(w: World, moves: seq<Move>)
    requires Start(w) && Timely(w, moves)
    ensures AllSafe(Run(w, moves)) && |Run(w, moves).procs| == |w.procs|
  {
    if moves != [] {
      var front := moves[..|moves| - 1];
      TimelyIsSafe(w, front);
      NextKeepsCount(Run(w, front), moves[|moves| - 1]);
      hide AllSafe, FindsExpired, Next;
      NextSafe(Run(w, front), moves[|moves| - 1]);
    }
  }

  /**
   Lock safety: in a run that finds no expired lock, at most one process is in the upload
   section and it holds the lock. Nobody gets there through a released lock: when the lock
   is gone after the wait, the target is there.
  */
  lemma MutualExclusion(w: World, moves: seq<Move>, i: nat, j: nat)
    requires Start(w) && Timely(w, moves)
    requires i < |w.procs| && j < |w.procs|
    ensures |Run(w, moves).procs| == |w.procs|
    ensures var now := Run(w, moves);
      && now.procs[i] != Uploading(Released) && now.procs[i] != TakeOver
      && (now.procs[i] == TestTarget ==> now.target)
      && (InSection(now.procs[i]) ==> Holds(now, i))
      && (InSection(now.procs[i]) && InSection(now.procs[j]) ==> i == j)
  {
    TimelyIsSafe(w, moves);
    assert Safe(Run(w, moves), i) && Safe(Run(w, moves), j);
  }

  // ----- when locks do not age

  /** No state of the run holds a lock older than the timeout. */
  predicate NeverAged(w: World, moves: seq<Move>) {
    var now := Run(w, moves);
    && (now.lock.Some? ==> Seconds(now.clock) - Seconds(now.lock.value.created) <= TIMEOUT)
    && (moves == [] || NeverAged(w, moves[..|moves| - 1]))
  }

  /** A time that was read is not in the future. */
  ghost predicate ClocksRead(w: World) {
    forall i :: 0 <= i < |w.procs| && w.procs[i].ReadLock? ==> w.procs[i].now <= Seconds(w.clock)
  }

  lemma NextClocks(w: World, m: Move)
    requires ClocksRead(w)
    ensures ClocksRead(Next(w, m))
  {
    if m.Tick? {
      assert Seconds(w.clock) <= Seconds(w.clock + m.ms);
    }
  }

  lemma {:induction false} RunClocks(w: World, moves: seq<Move>)
    requires Start(w)
    ensures ClocksRead(Run(w, moves))
  {
    if moves != [] {
      RunClocks(w, moves[..|moves| - 1]);
      NextClocks(Run(w, moves[..|moves| - 1]), moves[|moves| - 1]);
    }
  }

  /** As long as no lock ages past the timeout, none is found expired. */
  lemma {:induction false} NeverAgedIsTimely(w: World, moves: seq<Move>)
    requires Start(w) && NeverAged(w, moves)
    ensures Timely(w, moves)
  {
    if moves != [] {
      var front := moves[..|moves| - 1];
      NeverAgedIsTimely(w, front);
      RunClocks(w, front);
      assert NeverAged(w, front);
    }
  }

  /** The same safety as long as no lock ages past the timeout. */
  lemma NeverAgedIsExclusive(w: World, moves: seq<Move>, i: nat, j: nat)
    requires Start(w) && NeverAged(w, moves)
    requires i < |w.procs| && j < |w.procs|
    ensures |Run(w, moves).procs| == |w.procs|
    ensures var now := Run(w, moves);
      && now.procs[i] != Uploading(Released) && now.procs[i] != TakeOver
      && (now.procs[i] == TestTarget ==> now.target)
      && (InSection(now.procs[i]) ==> Holds(now, i))
      && (InSection(now.procs[i]) && InSection(now.procs[j]) ==> i == j)
  {
    NeverAgedIsTimely(w, moves);
    MutualExclusion(w, moves, i, j);
  }

  // ----- the wait

  /** Once the sleep is over, the lock that was read would have expired. */
  predicate Outlasts(start: nat, now: nat, created: nat)
    requires SleepTime(now, created) >= 0
  {
    IsExpired(Seconds(start + 1000 * SleepTime(now, created)), created)
  }

  /**
   The sleep outlasts the lock exactly when the lock is not much younger than the clock
   reading; in particular whenever the lock existed when the clock was read.
  */
  lemma SleepOutlastsExactly(start: nat, now: nat, created: nat)
    requires SleepTime(now, created) >= 0
    ensures Outlasts(start, now, created) <==> 2 * Seconds(created) < Seconds(start) + now + MARGIN
    ensures Seconds(created) <= now <= Seconds(start) ==> Outlasts(start, now, created)
  {
    assert Seconds(start + 1000 * SleepTime(now, created)) == Seconds(start) + SleepTime(now, created);
  }

  // ----- what happens otherwise

  lemma Begins(w: World)
    ensures Run(w, []) == w && Timely(w, [])
  {
  }

  /** One more move of a concrete run. */
  lemma Then(w: World, moves: seq<Move>, now: World, m: Move) returns (more: seq<Move>, next: World)
    requires now == Run(w, moves)
    ensures more == moves + [m] && next == Next(now, m) && next == Run(w, more)
    ensures Timely(w, more) <==> Timely(w, moves) && !FindsExpired(now, m)
  {
    more, next := moves + [m], Next(now, m);
    assert more[..|moves|] == moves;
  }

  function Does(i: nat): Move {
    Act(i, Works)
  }

  /** Three hosts find neither lock nor target. */
  const THREE := World(0, None, false, [Guard, Guard, Guard])

  lemma OneCreatesTheLock() returns (moves: seq<Move>)
    ensures Timely(THREE, moves)
    ensures Run(THREE, moves) == World(0, Some(Lock(0, 0)), false, [Uploading(Created), TryLock, TryLock])
  {
    hide Run, Timely;
    var now := THREE;
    moves := [];
    Begins(now);
    moves, now := Then(THREE, moves, now, Does(0));
    moves, now := Then(THREE, moves, now, Does(1));
    moves, now := Then(THREE, moves, now, Does(2));
    assert now == World(0, None, false, [TryLock, TryLock, TryLock]);
    moves, now := Then(THREE, moves, now, Does(0));
  }

  /** The holder finishes while another process has seen its lock but not read it. */
  lemma OneFinishes() returns (moves: seq<Move>)
    ensures Timely(THREE, moves)
    ensures Run(THREE, moves) == World(0, None, true, [Done, ReadLock(0), TryLock])
  {
    moves := OneCreatesTheLock();
    hide Run, Timely;
    var now := World(0, Some(Lock(0, 0)), false, [Uploading(Created), TryLock, TryLock]);
    moves, now := Then(THREE, moves, now, Does(1));
    moves, now := Then(THREE, moves, now, Does(1));
    assert now == World(0, Some(Lock(0, 0)), false, [Uploading(Created), ReadLock(0), TryLock]);
    moves, now := Then(THREE, moves, now, Does(0));
    moves, now := Then(THREE, moves, now, Does(0));
    assert now == World(0, Some(Lock(0, 0)), true, [Verified(Created), ReadLock(0), TryLock]);
    moves, now := Then(THREE, moves, now, Does(0));
  }

  lemma OneIsSlow() returns (moves: seq<Move>)
    ensures var w := World(0, None, false, [Guard, Guard]);
      && Timely(w, moves)
      && Run(w, moves) == World(241000, Some(Lock(0, 0)), false, [Uploading(Created), ReadLock(241)])
  {
    hide Run, Timely;
    var w := World(0, None, false, [Guard, Guard]);
    var now := w;
    moves := [];
    Begins(w);
    moves, now := Then(w, moves, now, Does(0));
    moves, now := Then(w, moves, now, Does(1));
    assert now == World(0, None, false, [TryLock, TryLock]);
    moves, now := Then(w, moves, now, Does(0));
    moves, now := Then(w, moves, now, Tick(241000));
    assert now == World(241000, Some(Lock(0, 0)), false, [Uploading(Created), TryLock]);
    moves, now := Then(w, moves, now, Does(1));
    moves, now := Then(w, moves, now, Does(1));
  }

  /** A holder slower than the timeout is joined by the process that takes its lock over. */
  lemma SlowHolderIsJoined() returns (w: World, moves: seq<Move>)
    ensures Start(w) && !Timely(w, moves)
    ensures var now := Run(w, moves);
      now.procs == [Uploading(Created), Uploading(Created)] && !now.target
  {
    w := World(0, None, false, [Guard, Guard]);
    moves := OneIsSlow();
    hide Run, Timely;
    var now := World(241000, Some(Lock(0, 0)), false, [Uploading(Created), ReadLock(241)]);
    assert IsExpired(241, 0);
    moves, now := Then(w, moves, now, Does(1));
    assert now == World(241000, Some(Lock(0, 0)), false, [Uploading(Created), TakeOver]);
    moves, now := Then(w, moves, now, Does(1));
    assert now == World(241000, None, false, [Uploading(Created), TryLock]);
    moves, now := Then(w, moves, now, Does(1));
  }

  lemma BothSeeTheDeadLock() returns (moves: seq<Move>)
    ensures var w := World(300000, Some(Lock(0, 2)), false, [Guard, Guard]);
      && Timely(w, moves)
      && Run(w, moves) == World(300000, Some(Lock(0, 2)), false, [ReadLock(300), ReadLock(300)])
  {
    hide Run, Timely;
    var w := World(300000, Some(Lock(0, 2)), false, [Guard, Guard]);
    var now := w;
    moves := [];
    Begins(w);
    moves, now := Then(w, moves, now, Does(0));
    moves, now := Then(w, moves, now, Does(1));
    assert now == World(300000, Some(Lock(0, 2)), false, [TryLock, TryLock]);
    moves, now := Then(w, moves, now, Does(0));
    moves, now := Then(w, moves, now, Does(1));
    assert now == World(300000, Some(Lock(0, 2)), false, [ReadClock, ReadClock]);
    moves, now := Then(w, moves, now, Does(0));
    moves, now := Then(w, moves, now, Does(1));
  }

  lemma BothTakeOver() returns (moves: seq<Move>)
    ensures var w := World(300000, Some(Lock(0, 2)), false, [Guard, Guard]);
      && !Timely(w, moves)
      && Run(w, moves) == World(300000, Some(Lock(0, 2)), false, [TakeOver, TakeOver])
  {
    moves := BothSeeTheDeadLock();
    hide Run, Timely;
    var w := World(300000, Some(Lock(0, 2)), false, [Guard, Guard]);
    var now := w.(procs := [ReadLock(300), ReadLock(300)]);
    assert IsExpired(300, 0);
    moves, now := Then(w, moves, now, Does(0));
    assert now == w.(procs := [TakeOver, ReadLock(300)]);
    moves, now := Then(w, moves, now, Does(1));
  }

  /**
   Even if only the lock of a dead process expires, two processes that both find it so
   upload together: the second removes the new lock of the first.
  */
  lemma TakeoverRace() returns (w: World, moves: seq<Move>)
    ensures Start(w) && !Timely(w, moves)
    ensures var now := Run(w, moves);
      now.procs == [Uploading(Created), Uploading(Created)] && !now.target && now.clock == w.clock
  {
    w := World(300000, Some(Lock(0, 2)), false, [Guard, Guard]);
    moves := BothTakeOver();
    hide Run, Timely, AfterReadLock;
    var now := World(300000, Some(Lock(0, 2)), false, [TakeOver, TakeOver]);
    moves, now := Then(w, moves, now, Does(0));
    moves, now := Then(w, moves, now, Does(0));
    assert now == World(300000, Some(Lock(300000, 0)), false, [Uploading(Created), TakeOver]);
    moves, now := Then(w, moves, now, Does(1));
    moves, now := Then(w, moves, now, Does(1));
  }

  /** One process waits for a lock that was created after it read the clock. */
  lemma WaitsForYoungLock() returns (moves: seq<Move>)
    ensures Timely(THREE, moves)
    ensures Run(THREE, moves) == World(100000, Some(Lock(100000, 2)), true, [Done, Sleeping(245000), Uploading(Created)])
  {
    moves := OneFinishes();
    hide Run, Timely;
    var now := World(0, None, true, [Done, ReadLock(0), TryLock]);
    moves, now := Then(THREE, moves, now, Tick(100000));
    moves, now := Then(THREE, moves, now, Does(2));
    assert now == World(100000, Some(Lock(100000, 2)), true, [Done, ReadLock(0), Uploading(Created)]);
    moves, now := Then(THREE, moves, now, Does(1));
  }

  /** A waiter that read the clock before the lock was created anew wakes up while it is still valid. */
  lemma ShortSleep() returns (w: World, moves: seq<Move>)
    ensures Start(w) && Timely(w, moves)
    ensures var now := Run(w, moves);
      && now.procs == [Done, Failed, Uploading(Created)]
      && now.lock == Some(Lock(100000, 2)) && !IsExpired(Seconds(now.clock), 100000)
  {
    w := THREE;
    moves := WaitsForYoungLock();
    hide Run, Timely;
    var now := World(100000, Some(Lock(100000, 2)), true, [Done, Sleeping(245000), Uploading(Created)]);
    moves, now := Then(w, moves, now, Tick(145000));
    moves, now := Then(w, moves, now, Does(1));
    assert now == World(245000, Some(Lock(100000, 2)), true, [Done, TestLock, Uploading(Created)]);
    moves, now := Then(w, moves, now, Does(1));
  }
}
