/**
 * The loop both rename passes run: move the i-th source file to the i-th
 * target name, in order, stopping for good at the first move that cannot be
 * made. Moves already made stay made.
 */
module Moves {
  import opened Folder

  datatype Fault = SourceMissing | TargetTaken

  datatype MoveOutcome =
    | AllMoved(dir: Dir, count: nat)
    | Halted(index: nat, fault: Fault, dir: Dir)

  /**
   * A target name is taken when a file of that name is in the folder. The
   * empty name counts as taken too: it combines to the folder's own path, and
   * File.Move onto that path fails. Only a random name can be empty; a
   * sequential target never is (Renamer.TargetNotEmpty).
   */
  predicate Taken(dir: Dir, name: string) {
    name == "" || name in dir
  }

  /**
   * Runs the moves from index `count` on. With `sourceFirst` the missing
   * source is reported before a taken target (File.Move's own order);
   * without it the target is checked first (an explicit File.Exists guard
   * ahead of File.Move).
   */
  function MoveEach(dir: Dir, sources: seq<string>, targets: seq<string>, sourceFirst: bool, count: nat): (r: MoveOutcome)
    requires |targets| == |sources| && count <= |sources|
    ensures |r.dir| == |dir|
    ensures r.AllMoved? ==> r.count == |sources|
    ensures r.Halted? ==> count <= r.index < |sources|
    decreases |sources| - count
  {
    if count == |sources| then AllMoved(dir, count)
    else
      var source, target := sources[count], targets[count];
      if sourceFirst && source !in dir then Halted(count, SourceMissing, dir)
      else if Taken(dir, target) then Halted(count, TargetTaken, dir)
      else if source !in dir then Halted(count, SourceMissing, dir)
      else MoveEach(Move(dir, source, target), sources, targets, sourceFirst, count + 1)
  }

  /** However the run ends, the folder holds the same contents it started with. */
  lemma {:induction false} MoveEachKeepsContents(dir: Dir, sources: seq<string>, targets: seq<string>, sourceFirst: bool, count: nat)
    requires |targets| == |sources| && count <= |sources|
    ensures SameContents(MoveEach(dir, sources, targets, sourceFirst, count).dir, dir)
    decreases |sources| - count
  {
    if count < |sources| {
      var source, target := sources[count], targets[count];
      if source in dir && !Taken(dir, target) {
        MoveKeepsContents(dir, source, target);
        MoveEachKeepsContents(Move(dir, source, target), sources, targets, sourceFirst, count + 1);
      }
    }
  }

  /** A well-formed plan: one target per source, sources are distinct files of `start`. */
  predicate Plan(start: Dir, sources: seq<string>, targets: seq<string>) {
    && |targets| == |sources|
    && Distinct(sources)
    && (forall k :: 0 <= k < |sources| ==> sources[k] in start)
  }

  /** Source `k` sits under target `k` with its original contents. */
  ghost predicate MovedTo(start: Dir, sources: seq<string>, targets: seq<string>, k: nat, dir: Dir)
    requires Plan(start, sources, targets) && k < |sources|
  {
    targets[k] in dir && dir[targets[k]] == start[sources[k]]
  }

  /** Source `j` is still in place with its original contents. */
  ghost predicate StillAt(start: Dir, sources: seq<string>, targets: seq<string>, j: nat, dir: Dir)
    requires Plan(start, sources, targets) && j < |sources|
  {
    sources[j] in dir && dir[sources[j]] == start[sources[j]]
  }

  /*
   * NonSource, Present and Shadows name simple facts so that the clauses
   * below can use them as triggers: a clause's quantifier is instantiated only
   * where a proof mentions the fact, which keeps the solver's work small.
   */

  /** `x` was in the folder before the run and is not planned to move. */
  ghost predicate NonSource(start: Dir, sources: seq<string>, x: string) {
    x in start && x !in sources
  }

  /** `x` names a file of `dir`. */
  ghost predicate Present(dir: Dir, x: string) {
    x in dir
  }

  /** Target `k` is the name of source `j`. */
  ghost predicate Shadows(sources: seq<string>, targets: seq<string>, k: nat, j: nat)
    requires k < |targets| && j < |sources|
  {
    targets[k] == sources[j]
  }

  /** The first `i` sources sit under their targets with their original contents. */
  ghost predicate DoneMoved(start: Dir, sources: seq<string>, targets: seq<string>, i: nat, dir: Dir)
    requires Plan(start, sources, targets) && i <= |sources|
  {
    forall k {:trigger MovedTo(start, sources, targets, k, dir)} ::
      0 <= k < i ==> MovedTo(start, sources, targets, k, dir)
  }

  /** The sources from `i` on are still in place with their original contents. */
  ghost predicate PendingKept(start: Dir, sources: seq<string>, targets: seq<string>, i: nat, dir: Dir)
    requires Plan(start, sources, targets) && i <= |sources|
  {
    forall j {:trigger StillAt(start, sources, targets, j, dir)} ::
      i <= j < |sources| ==> StillAt(start, sources, targets, j, dir)
  }

  /** Files that are not sources are untouched. */
  ghost predicate OthersKept(start: Dir, sources: seq<string>, dir: Dir) {
    forall x {:trigger NonSource(start, sources, x)} ::
      NonSource(start, sources, x) ==> x in dir && dir[x] == start[x]
  }

  /** Every file is an untouched non-source, a pending source or a target already used. */
  ghost predicate NothingElse(start: Dir, sources: seq<string>, targets: seq<string>, i: nat, dir: Dir)
    requires Plan(start, sources, targets) && i <= |sources|
  {
    forall x {:trigger Present(dir, x)} ::
      Present(dir, x) ==> NonSource(start, sources, x) || x in sources[i..] || x in targets[..i]
  }

  /** No target used so far is the name of a pending source. */
  ghost predicate NoPendingShadowed(start: Dir, sources: seq<string>, targets: seq<string>, i: nat)
    requires Plan(start, sources, targets) && i <= |sources|
  {
    forall k, j {:trigger Shadows(sources, targets, k, j)} ::
      0 <= k < i <= j < |sources| ==> !Shadows(sources, targets, k, j)
  }

  /**
   * `dir` is `start` after exactly the first `i` moves: those sources sit
   * under their targets with their contents, the later sources and every
   * file not planned to move are untouched, nothing else exists, and no
   * earlier target has the name of a later source.
   */
  ghost predicate MovedUpTo(start: Dir, sources: seq<string>, targets: seq<string>, i: nat, dir: Dir)
    requires Plan(start, sources, targets) && i <= |sources|
  {
    && DoneMoved(start, sources, targets, i, dir)
    && PendingKept(start, sources, targets, i, dir)
    && OthersKept(start, sources, dir)
    && NothingElse(start, sources, targets, i, dir)
    && NoPendingShadowed(start, sources, targets, i)
  }

  /**
   * Move `i` is blocked when, judged against the folder before any move,
   * its target is the empty name, a file that no earlier move has cleared,
   * or the target of an earlier move.
   */
  predicate Blocked(start: Dir, sources: seq<string>, targets: seq<string>, i: nat)
    requires |targets| == |sources| && i < |sources|
  {
    || targets[i] == ""
    || (targets[i] in start && targets[i] !in sources[..i])
    || targets[i] in targets[..i]
  }

  lemma MovedUpToStart(start: Dir, sources: seq<string>, targets: seq<string>)
    requires Plan(start, sources, targets)
    ensures MovedUpTo(start, sources, targets, 0, start)
  {
    assert sources[0..] == sources;
    forall x | Present(start, x)
      ensures NonSource(start, sources, x) || x in sources[0..]
    {
    }
  }

  /** In the state after `i` moves, move `i` finds its target taken exactly when it is blocked. */
  lemma TakenIffBlocked(start: Dir, sources: seq<string>, targets: seq<string>, i: nat, dir: Dir)
    requires Plan(start, sources, targets) && i < |sources|
    requires MovedUpTo(start, sources, targets, i, dir)
    ensures Taken(dir, targets[i]) <==> Blocked(start, sources, targets, i)
  {
    var t := targets[i];
    if t in dir {
      assert Present(dir, t);
    }
    if t in sources[i..] {
      var j :| 0 <= j < |sources[i..]| && sources[i..][j] == t;
      assert sources[i + j] == t;
      assert StillAt(start, sources, targets, i + j, dir);
    }
    if t in targets[..i] {
      var k :| 0 <= k < i && targets[..i][k] == t;
      assert MovedTo(start, sources, targets, k, dir);
    }
    if t in start && t !in sources[..i] {
      if t in sources {
        var j :| 0 <= j < |sources| && sources[j] == t;
        assert j >= i;
        assert StillAt(start, sources, targets, j, dir);
      } else {
        assert NonSource(start, sources, t);
      }
    }
  }

  lemma StepDoneMoved(start: Dir, sources: seq<string>, targets: seq<string>, i: nat, dir: Dir)
    requires Plan(start, sources, targets) && i < |sources|
    requires DoneMoved(start, sources, targets, i, dir) && NoPendingShadowed(start, sources, targets, i)
    requires StillAt(start, sources, targets, i, dir) && targets[i] !in dir
    ensures DoneMoved(start, sources, targets, i + 1, Move(dir, sources[i], targets[i]))
  {
    var next := Move(dir, sources[i], targets[i]);
    forall k | 0 <= k < i + 1
      ensures MovedTo(start, sources, targets, k, next)
    {
      if k < i {
        assert MovedTo(start, sources, targets, k, dir);
        assert !Shadows(sources, targets, k, i);
      }
    }
  }

  lemma StepPendingKept(start: Dir, sources: seq<string>, targets: seq<string>, i: nat, dir: Dir)
    requires Plan(start, sources, targets) && i < |sources|
    requires PendingKept(start, sources, targets, i, dir)
    requires sources[i] in dir && targets[i] !in dir
    ensures PendingKept(start, sources, targets, i + 1, Move(dir, sources[i], targets[i]))
  {
    var next := Move(dir, sources[i], targets[i]);
    assert StillAt(start, sources, targets, i, dir);
    forall j | i + 1 <= j < |sources|
      ensures StillAt(start, sources, targets, j, next)
    {
      assert StillAt(start, sources, targets, j, dir);
    }
  }

  lemma StepOthersKept(start: Dir, sources: seq<string>, targets: seq<string>, i: nat, dir: Dir)
    requires Plan(start, sources, targets) && i < |sources|
    requires OthersKept(start, sources, dir)
    requires sources[i] in dir && targets[i] !in dir
    ensures OthersKept(start, sources, Move(dir, sources[i], targets[i]))
  {
    var next := Move(dir, sources[i], targets[i]);
    forall x | NonSource(start, sources, x)
      ensures x in next && next[x] == start[x]
    {
      assert x in dir;
    }
  }

  lemma StepNothingElse(start: Dir, sources: seq<string>, targets: seq<string>, i: nat, dir: Dir)
    requires Plan(start, sources, targets) && i < |sources|
    requires NothingElse(start, sources, targets, i, dir)
    requires sources[i] in dir && targets[i] !in dir
    ensures NothingElse(start, sources, targets, i + 1, Move(dir, sources[i], targets[i]))
  {
    var source, target := sources[i], targets[i];
    var next := Move(dir, source, target);
    forall x | Present(next, x)
      ensures NonSource(start, sources, x) || x in sources[i + 1..] || x in targets[..i + 1]
    {
      if x == target {
        assert targets[..i + 1][i] == x;
      } else {
        assert Present(dir, x);
        if x in sources[i..] {
          var j :| 0 <= j < |sources[i..]| && sources[i..][j] == x;
          assert j != 0;
          assert sources[i + 1..][j - 1] == x;
        } else if x in targets[..i] {
          var k :| 0 <= k < i && targets[..i][k] == x;
          assert targets[..i + 1][k] == x;
        }
      }
    }
  }

  lemma StepNoPendingShadowed(start: Dir, sources: seq<string>, targets: seq<string>, i: nat, dir: Dir)
    requires Plan(start, sources, targets) && i < |sources|
    requires NoPendingShadowed(start, sources, targets, i) && PendingKept(start, sources, targets, i, dir)
    requires targets[i] !in dir
    ensures NoPendingShadowed(start, sources, targets, i + 1)
  {
    forall k, j | 0 <= k < i + 1 <= j < |sources|
      ensures !Shadows(sources, targets, k, j)
    {
      if k == i {
        assert StillAt(start, sources, targets, j, dir);
      } else {
        assert !Shadows(sources, targets, k, j);
      }
    }
  }

  /**
   * One step of the run: move `i` is made exactly when it is not blocked,
   * and then the folder is in the expected state one move further.
   */
  lemma NextMove(start: Dir, sources: seq<string>, targets: seq<string>, i: nat, dir: Dir)
    requires Plan(start, sources, targets) && i < |sources|
    requires MovedUpTo(start, sources, targets, i, dir)
    ensures sources[i] in dir
    ensures Taken(dir, targets[i]) <==> Blocked(start, sources, targets, i)
    ensures !Taken(dir, targets[i]) ==> MovedUpTo(start, sources, targets, i + 1, Move(dir, sources[i], targets[i]))
  {
    TakenIffBlocked(start, sources, targets, i, dir);
    assert StillAt(start, sources, targets, i, dir);
    if !Taken(dir, targets[i]) {
      StepDoneMoved(start, sources, targets, i, dir);
      StepPendingKept(start, sources, targets, i, dir);
      StepOthersKept(start, sources, targets, i, dir);
      StepNothingElse(start, sources, targets, i, dir);
      StepNoPendingShadowed(start, sources, targets, i, dir);
    }
  }

  /** What a run ends in: all moves made, or a halt at the first blocked move with the earlier ones made. */
  ghost predicate EndsWell(start: Dir, sources: seq<string>, targets: seq<string>, r: MoveOutcome)
    requires Plan(start, sources, targets)
  {
    && (r.AllMoved? ==>
          && MovedUpTo(start, sources, targets, |sources|, r.dir)
          && forall k :: 0 <= k < |sources| ==> !Blocked(start, sources, targets, k))
    && (r.Halted? ==>
          && r.fault == TargetTaken
          && r.index < |sources|
          && Blocked(start, sources, targets, r.index)
          && MovedUpTo(start, sources, targets, r.index, r.dir)
          && forall k :: 0 <= k < r.index ==> !Blocked(start, sources, targets, k))
  }

  /** A run that reaches a blocked move in the expected state halts there, and ends well. */
  lemma HaltHere(start: Dir, sources: seq<string>, targets: seq<string>, sourceFirst: bool, i: nat, dir: Dir)
    requires Plan(start, sources, targets) && i < |sources|
    requires MovedUpTo(start, sources, targets, i, dir)
    requires forall k :: 0 <= k < i ==> !Blocked(start, sources, targets, k)
    requires Taken(dir, targets[i])
    ensures MoveEach(dir, sources, targets, sourceFirst, i) == Halted(i, TargetTaken, dir)
    ensures EndsWell(start, sources, targets, MoveEach(dir, sources, targets, sourceFirst, i))
  {
    NextMove(start, sources, targets, i, dir);
  }

  /** A free move is made, and the run goes on from the next index in the moved folder. */
  lemma StepOn(start: Dir, sources: seq<string>, targets: seq<string>, sourceFirst: bool, i: nat, dir: Dir)
    requires Plan(start, sources, targets) && i < |sources|
    requires sources[i] in dir && !Taken(dir, targets[i])
    requires EndsWell(start, sources, targets, MoveEach(Move(dir, sources[i], targets[i]), sources, targets, sourceFirst, i + 1))
    ensures EndsWell(start, sources, targets, MoveEach(dir, sources, targets, sourceFirst, i))
  {
    assert MoveEach(dir, sources, targets, sourceFirst, i)
        == MoveEach(Move(dir, sources[i], targets[i]), sources, targets, sourceFirst, i + 1);
  }

  /**
   * From the state after `i` unblocked moves, the run halts at the first
   * blocked move, always for a taken target, and otherwise completes.
   */
  lemma {:induction false} MoveEachFrom(start: Dir, sources: seq<string>, targets: seq<string>, sourceFirst: bool, i: nat, dir: Dir)
    requires Plan(start, sources, targets) && i <= |sources|
    requires MovedUpTo(start, sources, targets, i, dir)
    requires forall k :: 0 <= k < i ==> !Blocked(start, sources, targets, k)
    ensures EndsWell(start, sources, targets, MoveEach(dir, sources, targets, sourceFirst, i))
    decreases |sources| - i
  {
    if i == |sources| {
      assert MoveEach(dir, sources, targets, sourceFirst, i) == AllMoved(dir, i);
    } else if Taken(dir, targets[i]) {
      HaltHere(start, sources, targets, sourceFirst, i, dir);
    } else {
      NextMove(start, sources, targets, i, dir);
      MoveEachFrom(start, sources, targets, sourceFirst, i + 1, Move(dir, sources[i], targets[i]));
      StepOn(start, sources, targets, sourceFirst, i, dir);
    }
  }

  /**
   * The whole run on a well-formed plan: it completes exactly when no move
   * is blocked, and otherwise halts at the first blocked move with the
   * earlier moves made and the rest not.
   */
  lemma MoveEachOutcome(start: Dir, sources: seq<string>, targets: seq<string>, sourceFirst: bool)
    requires Plan(start, sources, targets)
    ensures var r := MoveEach(start, sources, targets, sourceFirst, 0);
      && (r.AllMoved? <==> forall k :: 0 <= k < |sources| ==> !Blocked(start, sources, targets, k))
      && (r.AllMoved? ==> MovedUpTo(start, sources, targets, |sources|, r.dir))
      && (r.Halted? ==>
            && r.fault == TargetTaken
            && r.index < |sources|
            && Blocked(start, sources, targets, r.index)
            && MovedUpTo(start, sources, targets, r.index, r.dir)
            && forall k :: 0 <= k < r.index ==> !Blocked(start, sources, targets, k))
  {
    MovedUpToStart(start, sources, targets);
    MoveEachFrom(start, sources, targets, sourceFirst, 0, start);
    var r := MoveEach(start, sources, targets, sourceFirst, 0);
    assert EndsWell(start, sources, targets, r);
  }
}
