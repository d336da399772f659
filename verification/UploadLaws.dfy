/** How the upload script ends: for a waiter, for the holder of the lock, and for a process left alone. */
module UploadLaws {
  import opened Prelude
  import opened UploadLock

  // ----- runs in parts

  lemma {:induction false} RunTogether(w: World, a: seq<Move>, b: seq<Move>)
    ensures Run(w, a + b) == Run(Run(w, a), b)
    decreases |b|
  {
    hide Next;
    if b == [] {
      assert a + b == a;
    } else {
      var front := b[..|b| - 1];
      RunTogether(w, a, front);
      assert (a + b)[..|a + b| - 1] == a + front && (a + b)[|a + b| - 1] == b[|b| - 1];
    }
  }

  lemma RunOne(w: World, a: seq<Move>, m: Move)
    ensures Run(w, a + [m]) == Next(Run(w, a), m)
  {
    assert (a + [m])[..|a|] == a;
  }

  lemma {:induction false} TimelyFront(w: World, a: seq<Move>, b: seq<Move>)
    requires Timely(w, a + b)
    ensures Timely(w, a)
    decreases |b|
  {
    hide FindsExpired;
    if b == [] {
      assert a + b == a;
    } else {
      assert (a + b)[..|a + b| - 1] == a + b[..|b| - 1];
      TimelyFront(w, a, b[..|b| - 1]);
    }
  }

  /** Moves of time and of other processes. */
  ghost predicate Others(moves: seq<Move>, i: nat) {
    forall m :: m in moves ==> m.Tick? || m.i != i
  }

  /** They do not move the process, and nothing removes the target. */
  lemma {:induction false} OthersKeep(w: World, moves: seq<Move>, i: nat)
    requires Others(moves, i) && i < |w.procs|
    ensures |Run(w, moves).procs| == |w.procs| && Run(w, moves).procs[i] == w.procs[i]
    ensures w.target ==> Run(w, moves).target
  {
    if moves != [] {
      var front, m := moves[..|moves| - 1], moves[|moves| - 1];
      OthersKeep(w, front, i);
      assert m in moves;
      OtherKeeps(Run(w, front), m, i);
    }
  }

  lemma OtherKeeps(w: World, m: Move, i: nat)
    requires (m.Tick? || m.i != i) && i < |w.procs|
    ensures |Next(w, m).procs| == |w.procs| && Next(w, m).procs[i] == w.procs[i]
    ensures w.target ==> Next(w, m).target
  {
  }

  // ----- single commands

  lemma Copies(w: World, i: nat)
    requires i < |w.procs| && w.procs[i] == Uploading(Created)
    ensures Next(w, Does(i)) == w.(target := true, procs := w.procs[i := if w.target then Failed else Copied(Created)])
  {
  }

  lemma Checks(w: World, i: nat)
    requires i < |w.procs| && w.procs[i] == Copied(Created) && w.target
    ensures Next(w, Does(i)) == w.(procs := w.procs[i := Verified(Created)])
  {
  }

  lemma Releases(w: World, i: nat)
    requires i < |w.procs| && w.procs[i] == Verified(Created) && w.lock.Some?
    ensures Next(w, Does(i)) == w.(lock := None, procs := w.procs[i := Done])
  {
  }

  lemma Wakes(w: World, i: nat)
    requires i < |w.procs| && w.procs[i].Sleeping? && w.clock >= w.procs[i].until
    ensures Next(w, Does(i)) == w.(procs := w.procs[i := TestLock])
  {
  }

  lemma Looks(w: World, i: nat)
    requires i < |w.procs| && w.procs[i] == TestLock
    ensures Next(w, Does(i)) == w.(procs := w.procs[i := if w.lock.Some? then Failed else TestTarget])
  {
  }

  lemma FindsTarget(w: World, i: nat)
    requires i < |w.procs| && w.procs[i] == TestTarget && w.target
    ensures Next(w, Does(i)) == w.(procs := w.procs[i := Skipped])
  {
  }

  lemma EndedStays(w: World, i: nat)
    requires i < |w.procs| && w.procs[i] in {Done, Skipped, Failed}
    ensures Next(w, OwnMove(w, i)) == w && Next(w, Does(i)) == w
  {
  }

  // ----- the end of a wait

  /**
   A process whose sleep is over, in a run that finds no expired lock and with any moves of
   others between its own: if the lock is gone when it looks, the file was uploaded by
   somebody else and it skips; if there is a lock, it fails.
  */
  lemma WaiterEnds(w: World, moves: seq<Move>, a: seq<Move>, b: seq<Move>, i: nat)
    requires Start(w) && i < |w.procs| && |Run(w, moves).procs| == |w.procs|
    requires Run(w, moves).procs[i].Sleeping? && Run(w, moves).clock >= Run(w, moves).procs[i].until
    requires Others(a, i) && Others(b, i) && Timely(w, moves + [Does(i)] + a)
    ensures var seen := Run(w, moves + [Does(i)] + a);
      var end := Run(w, moves + [Does(i)] + a + [Does(i)] + b + [Does(i)]);
      && |end.procs| == |w.procs|
      && (seen.lock.None? ==> end.procs[i] == Skipped && end.target)
      && (seen.lock.Some? ==> end.procs[i] == Failed)
  {
    TimelyIsSafe(w, moves + [Does(i)] + a);
    hide Run, Timely, Next;
    var w0, w1 := Run(w, moves), Run(w, moves + [Does(i)]);
    RunOne(w, moves, Does(i));
    Wakes(w0, i);
    RunTogether(w, moves + [Does(i)], a);
    OthersKeep(w1, a, i);
    var w2, w3 := Run(w, moves + [Does(i)] + a), Run(w, moves + [Does(i)] + a + [Does(i)]);
    assert Safe(w2, i);
    RunOne(w, moves + [Does(i)] + a, Does(i));
    Looks(w2, i);
    RunTogether(w, moves + [Does(i)] + a + [Does(i)], b);
    OthersKeep(w3, b, i);
    var w4 := Run(w, moves + [Does(i)] + a + [Does(i)] + b);
    RunOne(w, moves + [Does(i)] + a + [Does(i)] + b, Does(i));
    if w2.lock.None? {
      FindsTarget(w4, i);
    } else {
      EndedStays(w4, i);
    }
  }

  // ----- the holder

  /**
   A process that is about to copy, in a run that finds no expired lock, is not stopped and
   copies rightly, with any moves of others in between: it is done, the target is there and
   the lock is released; only a target that was there already makes it fail, with the lock kept.
  */
  lemma HolderEnds(w: World, moves: seq<Move>, a: seq<Move>, b: seq<Move>, i: nat)
    requires Start(w) && i < |w.procs| && |Run(w, moves).procs| == |w.procs| && Run(w, moves).procs[i].Uploading?
    requires Others(a, i) && Others(b, i)
    requires Timely(w, moves + [Does(i)] + a + [Does(i)] + b)
    ensures var end := Run(w, moves + [Does(i)] + a + [Does(i)] + b + [Does(i)]);
      && |end.procs| == |w.procs|
      && (!Run(w, moves).target ==> end.procs[i] == Done && end.target && end.lock.None?)
      && (Run(w, moves).target ==> end.procs[i] == Failed && Holds(Run(w, moves + [Does(i)]), i))
  {
    TimelyIsSafe(w, moves + [Does(i)] + a + [Does(i)] + b);
    TimelyFront(w, moves, [Does(i)] + a + [Does(i)] + b) by {
      assert moves + ([Does(i)] + a + [Does(i)] + b) == moves + [Does(i)] + a + [Does(i)] + b;
    }
    TimelyIsSafe(w, moves);
    hide Run, Timely, Next;
    var w0, w1 := Run(w, moves), Run(w, moves + [Does(i)]);
    assert Safe(w0, i);
    RunOne(w, moves, Does(i));
    Copies(w0, i);
    RunTogether(w, moves + [Does(i)], a);
    OthersKeep(w1, a, i);
    var w2, w3 := Run(w, moves + [Does(i)] + a), Run(w, moves + [Does(i)] + a + [Does(i)]);
    RunOne(w, moves + [Does(i)] + a, Does(i));
    if w0.target {
      EndedStays(w2, i);
    } else {
      Checks(w2, i);
    }
    RunTogether(w, moves + [Does(i)] + a + [Does(i)], b);
    OthersKeep(w3, b, i);
    var w4 := Run(w, moves + [Does(i)] + a + [Does(i)] + b);
    assert Safe(w4, i);
    RunOne(w, moves + [Does(i)] + a + [Does(i)] + b, Does(i));
    if w0.target {
      EndedStays(w4, i);
    } else {
      Releases(w4, i);
    }
  }

  /** A copy that lands under another name is noticed: the process fails and its lock stays. */
  lemma WrongCopyFails(w: World, i: nat)
    requires i < |w.procs| && w.procs[i].Uploading? && !w.target
    ensures var end := Next(Next(w, Act(i, Elsewhere)), Does(i));
      end == w.(procs := w.procs[i := Failed])
  {
  }

  /** A process that stops leaves everything as it is, its lock too. */
  lemma StoppedLeaves(w: World, i: nat)
    requires i < |w.procs| && w.procs[i] !in {Done, Skipped, Failed}
    ensures Next(w, Act(i, Stops)) == w.(procs := w.procs[i := Failed])
  {
  }

  /** A lock that is gone when it is read, taken over or released fails the process. */
  lemma VanishedLockFails(w: World, i: nat)
    requires i < |w.procs| && w.lock.None?
    requires w.procs[i].ReadLock? || w.procs[i].TakeOver? || w.procs[i].Verified?
    ensures Next(w, Does(i)) == w.(procs := w.procs[i := Failed])
  {
  }

  // ----- a process left alone

  /** The next move when only process `i` runs: its command, or the rest of its sleep. */
  function OwnMove(w: World, i: nat): Move
    requires i < |w.procs|
  {
    if w.procs[i].Sleeping? && w.clock < w.procs[i].until then Tick(w.procs[i].until - w.clock) else Does(i)
  }

  function Solo(w: World, i: nat, n: nat): (r: World)
    requires i < |w.procs|
    ensures |r.procs| == |w.procs|
  {
    if n == 0 then w
    else
      NextKeepsCount(Solo(w, i, n - 1), OwnMove(Solo(w, i, n - 1), i));
      Next(Solo(w, i, n - 1), OwnMove(Solo(w, i, n - 1), i))
  }

  lemma SoloMore(w: World, i: nat, n: nat)
    requires i < |w.procs|
    ensures Solo(w, i, n + 1) == Next(Solo(w, i, n), OwnMove(Solo(w, i, n), i))
    ensures Solo(w, i, 0) == w
  {
  }

  /** It has ended. */
  lemma {:induction false} SoloRests(w: World, i: nat, n: nat, m: nat)
    requires i < |w.procs| && Solo(w, i, n).procs[i] in {Done, Skipped, Failed} && n <= m
    ensures Solo(w, i, m) == Solo(w, i, n)
    decreases m
  {
    hide Solo, Next;
    if n < m {
      SoloRests(w, i, n, m - 1);
      SoloMore(w, i, m - 1);
      EndedStays(Solo(w, i, m - 1), i);
    }
  }

  /** Nothing is done when the target is there. */
  lemma SkipsAlone(w: World, i: nat)
    requires i < |w.procs| && w.procs[i] == Guard && w.target
    ensures Solo(w, i, 9) == w.(procs := w.procs[i := Skipped])
  {
    SoloMore(w, i, 0);
    SoloRests(w, i, 1, 9);
  }

  /** Without a lock the file is uploaded, and the lock is gone afterwards. */
  lemma UploadsAlone(w: World, i: nat, n: nat)
    requires i < |w.procs| && Solo(w, i, n) == w.(lock := None, procs := w.procs[i := TryLock]) && !w.target && n <= 5
    ensures Solo(w, i, 9) == w.(lock := None, target := true, procs := w.procs[i := Done])
  {
    hide Solo;
    SoloMore(w, i, n);
    assert Solo(w, i, n + 1) == w.(lock := Some(Lock(w.clock, i)), procs := w.procs[i := Uploading(Created)]);
    SoloMore(w, i, n + 1);
    SoloMore(w, i, n + 2);
    assert Solo(w, i, n + 3) ==
      w.(lock := Some(Lock(w.clock, i)), target := true, procs := w.procs[i := Verified(Created)]);
    SoloMore(w, i, n + 3);
    SoloRests(w, i, n + 4, 9);
  }

  /** With a lock, the time is read and then the age of the lock. */
  lemma MeetsLock(w: World, i: nat)
    requires i < |w.procs| && w.procs[i] == Guard && !w.target && w.lock.Some?
    ensures Solo(w, i, 4) == w.(procs := w.procs[i := AfterReadLock(w, Seconds(w.clock))])
  {
    hide Solo, Next, AfterReadLock;
    SoloMore(w, i, 0);
    var tried, asked := w.(procs := w.procs[i := TryLock]), w.(procs := w.procs[i := ReadClock]);
    SoloStep(w, i, 0, w);
    PassesGuard(w, i);
    SoloStep(w, i, 1, tried);
    FindsLock(tried, i);
    assert tried.procs[i := ReadClock] == asked.procs;
    SoloStep(w, i, 2, asked);
    ReadsClock(asked, i);
    var read := asked.(procs := asked.procs[i := ReadLock(Seconds(w.clock))]);
    SoloStep(w, i, 3, read);
    ReadsLock(read, i);
    assert read.procs[i := AfterReadLock(read, Seconds(w.clock))] == w.procs[i := AfterReadLock(read, Seconds(w.clock))];
    SameReading(w, read, Seconds(w.clock));
  }

  lemma SameReading(a: World, b: World, now: nat)
    requires a.lock == b.lock && a.clock == b.clock
    ensures AfterReadLock(a, now) == AfterReadLock(b, now)
  {
  }

  lemma SoloStep(w: World, i: nat, n: nat, now: World)
    requires i < |w.procs| && Solo(w, i, n) == now && !now.procs[i].Sleeping?
    ensures Solo(w, i, n + 1) == Next(now, Does(i))
  {
    hide Next;
  }

  lemma PassesGuard(w: World, i: nat)
    requires i < |w.procs| && w.procs[i] == Guard && !w.target
    ensures Next(w, Does(i)) == w.(procs := w.procs[i := TryLock])
  {
  }

  lemma FindsLock(w: World, i: nat)
    requires i < |w.procs| && w.procs[i] == TryLock && w.lock.Some?
    ensures Next(w, Does(i)) == w.(procs := w.procs[i := ReadClock])
  {
  }

  lemma ReadsClock(w: World, i: nat)
    requires i < |w.procs| && w.procs[i] == ReadClock
    ensures Next(w, Does(i)) == w.(procs := w.procs[i := ReadLock(Seconds(w.clock))])
  {
  }

  lemma ReadsLock(w: World, i: nat)
    requires i < |w.procs| && w.procs[i].ReadLock?
    ensures Next(w, Does(i)) == w.(procs := w.procs[i := AfterReadLock(w, w.procs[i].now)])
  {
    hide AfterReadLock;
  }

  /** A lock that is honoured and never released makes the process wait out its time, and fail. */
  lemma WaitsAlone(w: World, i: nat, sleep: nat)
    requires i < |w.procs| && Solo(w, i, 4) == w.(procs := w.procs[i := Sleeping(w.clock + sleep)]) && w.lock.Some?
    ensures Solo(w, i, 9) == w.(clock := w.clock + sleep, procs := w.procs[i := Failed])
  {
    hide Solo, AfterReadLock;
    SoloMore(w, i, 4);
    if sleep > 0 {
      assert Solo(w, i, 5) == w.(clock := w.clock + sleep, procs := w.procs[i := Sleeping(w.clock + sleep)]);
      SoloMore(w, i, 5);
      SoloMore(w, i, 6);
      SoloRests(w, i, 7, 9);
    } else {
      SoloMore(w, i, 5);
      SoloRests(w, i, 6, 9);
    }
  }

  lemma FindsNothing(w: World, i: nat)
    requires i < |w.procs| && w.procs[i] == TestLock && w.lock.None? && !w.target
    ensures Solo(w, i, 2) == w.(procs := w.procs[i := Uploading(Released)])
  {
    hide Solo;
    SoloMore(w, i, 0);
    SoloMore(w, i, 1);
  }

  /** After a wait, without lock and target, the file is uploaded all the same, but there is no lock to release. */
  lemma ReleasedAlone(w: World, i: nat)
    requires i < |w.procs| && w.procs[i] == TestLock && w.lock.None? && !w.target
    ensures Solo(w, i, 5) == w.(target := true, procs := w.procs[i := Failed])
  {
    FindsNothing(w, i);
    hide Solo;
    SoloMore(w, i, 2);
    assert Solo(w, i, 3) == w.(target := true, procs := w.procs[i := Copied(Released)]);
    SoloMore(w, i, 3);
    SoloMore(w, i, 4);
  }

  /**
   The whole script of a process that nobody disturbs: it skips when the target is there;
   it uploads when there is no lock, or one older than 240 seconds, and leaves none; it
   fails when there is another lock, after 245 seconds more than its age, unless that is
   not positive.
  */
  lemma AloneExactly(w: World, i: nat)
    requires i < |w.procs| && w.procs[i] == Guard
    ensures var end := Solo(w, i, 9);
      if w.target then end == w.(procs := w.procs[i := Skipped])
      else if w.lock.None? || w.clock / 1000 - w.lock.value.created / 1000 > 240 then
        end == w.(lock := None, target := true, procs := w.procs[i := Done])
      else
        var sleep := 245 - w.lock.value.created / 1000 + w.clock / 1000;
        end == w.(clock := w.clock + (if sleep > 0 then 1000 * sleep else 0), procs := w.procs[i := Failed])
  {
    if w.target {
      SkipsAlone(w, i);
    } else if w.lock.None? {
      SoloMore(w, i, 0);
      UploadsAlone(w, i, 1);
    } else {
      AloneWithLock(w, i);
    }
  }

  lemma AloneWithLock(w: World, i: nat)
    requires i < |w.procs| && w.procs[i] == Guard && !w.target && w.lock.Some?
    ensures var end, created, now := Solo(w, i, 9), w.lock.value.created / 1000, w.clock / 1000;
      if now - created > 240 then end == w.(lock := None, target := true, procs := w.procs[i := Done])
      else end == w.(clock := w.clock + (if 245 - created + now > 0 then 1000 * (245 - created + now) else 0),
        procs := w.procs[i := Failed])
  {
    hide Solo, Next;
    MeetsLock(w, i);
    var now := Seconds(w.clock);
    if IsExpired(now, w.lock.value.created) {
      TakesOver(w, i);
      UploadsAlone(w, i, 5);
    } else if SleepTime(now, w.lock.value.created) < 0 {
      SoloRests(w, i, 4, 9);
    } else {
      WaitsAlone(w, i, 1000 * SleepTime(now, w.lock.value.created));
    }
  }

  lemma TakesOver(w: World, i: nat)
    requires i < |w.procs| && Solo(w, i, 4) == w.(procs := w.procs[i := TakeOver]) && w.lock.Some?
    ensures Solo(w, i, 5) == w.(lock := None, procs := w.procs[i := TryLock])
  {
    hide Solo;
    SoloMore(w, i, 4);
  }
}
