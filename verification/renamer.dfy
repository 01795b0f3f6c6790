/**
 * The portrait renamer's run: validate the folder and options, then either
 * give every bitmap a random ".bmp" name, or rename the bitmaps in listing
 * order to prefix + counter + original extension, aborting at the first
 * target that already exists without undoing earlier renames.
 */
module Renamer {
  import opened Folder
  import opened Numerals
  import opened Paths
  import opened Bitmaps
  import opened Moves
  import opened Text

  /** The parsed command line, less the folder path (the model has one folder). */
  datatype Arguments = Arguments(renamePrefix: string, randomRename: bool)

  datatype ErrorKind =
    | InvalidDirectory
    | InvalidPrefix
    | TooManyFiles(found: nat)
    | TargetExists(index: nat, target: string)
    | MoveFailed(index: nat, target: string)
    | SourceNotFound(index: nat, source: string)

  /** What the run reports on success: random mode names no count. */
  datatype Report = ProcessingFinished | Processed(count: nat)

  /** The folder is carried on both sides: an aborted run leaves its partial effect. */
  datatype Outcome =
    | Completed(dir: Dir, report: Report)
    | Aborted(error: ErrorKind, dir: Dir)

  const MaxPrefixLength := 4
  const MaxBitmaps := 9999

  /** The new name of the bitmap `source` renamed with counter value `index`. */
  function Target(prefix: string, index: nat, source: string): string {
    prefix + ToDecimal(index) + Extension(source)
  }

  function Targets(prefix: string, sources: seq<string>): seq<string> {
    seq(|sources|, k requires 0 <= k < |sources| => Target(prefix, k, sources[k]))
  }

  /** The names the random pass moves to: the i-th random file name with its extension changed to "bmp". */
  function RandomTargets(randomName: nat -> string, n: nat): seq<string> {
    seq(n, k requires 0 <= k < n => ChangeExtension(randomName(k), "bmp"))
  }

  /** The sequential pass over an already enumerated list of bitmaps. */
  function SequentialRename(dir: Dir, bitmaps: seq<string>, prefix: string): (r: Outcome)
    ensures |r.dir| == |dir| && SameContents(r.dir, dir)
    ensures r.Completed? ==> r.report == Processed(|bitmaps|)
    ensures r.Aborted? ==> r.error.TargetExists? || r.error.SourceNotFound?
  {
    var targets := Targets(prefix, bitmaps);
    MoveEachKeepsContents(dir, bitmaps, targets, false, 0);
    match MoveEach(dir, bitmaps, targets, false, 0)
    case AllMoved(moved, count) => Completed(moved, Processed(count))
    case Halted(i, TargetTaken, partial) => Aborted(TargetExists(i, targets[i]), partial)
    case Halted(i, SourceMissing, partial) => Aborted(SourceNotFound(i, bitmaps[i]), partial)
  }

  /** The random pass; `randomName(i)` is the i-th name drawn from the system. */
  function RandomRename(dir: Dir, bitmaps: seq<string>, randomName: nat -> string): (r: Outcome)
    ensures |r.dir| == |dir| && SameContents(r.dir, dir)
    ensures r.Completed? ==> r.report == ProcessingFinished
    ensures r.Aborted? ==> r.error.MoveFailed? || r.error.SourceNotFound?
  {
    var targets := RandomTargets(randomName, |bitmaps|);
    MoveEachKeepsContents(dir, bitmaps, targets, true, 0);
    match MoveEach(dir, bitmaps, targets, true, 0)
    case AllMoved(moved, _) => Completed(moved, ProcessingFinished)
    case Halted(i, TargetTaken, partial) => Aborted(MoveFailed(i, targets[i]), partial)
    case Halted(i, SourceMissing, partial) => Aborted(SourceNotFound(i, bitmaps[i]), partial)
  }

  /**
   * One run of the program on folder `dir`, whose existence is `dirExists`
   * and whose enumeration is `listing`.
   */
  function Run(args: Arguments, dirExists: bool, dir: Dir, listing: seq<string>, randomName: nat -> string): (r: Outcome)
    ensures |r.dir| == |dir| && SameContents(r.dir, dir)
    ensures r.Aborted? && r.error.InvalidDirectory? <==> !dirExists
    ensures r.Aborted? && r.error.InvalidPrefix? <==>
      dirExists && !args.randomRename && Utf16Length(args.renamePrefix) > MaxPrefixLength
    ensures r.Aborted? && r.error.TooManyFiles? <==>
      && dirExists && !args.randomRename && Utf16Length(args.renamePrefix) <= MaxPrefixLength
      && |GetBitmaps(listing)| > MaxBitmaps
    ensures r.Aborted? && (r.error.InvalidDirectory? || r.error.InvalidPrefix? || r.error.TooManyFiles?) ==> r.dir == dir
    ensures r.Completed? ==>
      r.report == if args.randomRename then ProcessingFinished else Processed(|GetBitmaps(listing)|)
  {
    if !dirExists then Aborted(InvalidDirectory, dir)
    else if args.randomRename then RandomRename(dir, GetBitmaps(listing), randomName)
    else if Utf16Length(args.renamePrefix) > MaxPrefixLength then Aborted(InvalidPrefix, dir)
    else
      var bitmaps := GetBitmaps(listing);
      if |bitmaps| > MaxBitmaps then Aborted(TooManyFiles(|bitmaps|), dir)
      else SequentialRename(dir, bitmaps, args.renamePrefix)
  }

  /**
   * The i-th target names a file of the folder as it was before the run
   * that is not one of the bitmaps renamed earlier.
   */
  predicate Collides(dir: Dir, bitmaps: seq<string>, targets: seq<string>, i: nat)
    requires i < |bitmaps| && |targets| == |bitmaps|
  {
    targets[i] in dir && targets[i] !in bitmaps[..i]
  }

  /** A bitmap's extension is four characters: a dot and three letters. */
  lemma BitmapExtension(name: string)
    requires IsBitmapName(name)
    ensures var e := Extension(name);
      |e| == 4 && e == name[|name| - 4..] && e[0] == '.' && NoDot(e[1..])
  {
  }

  /**
   * A sequential target is the prefix, then the counter in decimal, then the
   * source's own extension with its letter case: a bitmap name whose part
   * before the extension has at most 4 + 4 = 8 characters.
   */
  lemma TargetShape(prefix: string, index: nat, source: string)
    requires |prefix| <= MaxPrefixLength && index < MaxBitmaps && IsBitmapName(source)
    ensures var t := Target(prefix, index, source);
      && IsBitmapName(t)
      && Extension(t) == Extension(source)
      && t[|t| - 4..] == source[|source| - 4..]
      && |t| - 4 <= 8
      && t[..|prefix|] == prefix
      && AllDigits(t[|prefix|..|t| - 4])
      && ValueOf(t[|prefix|..|t| - 4]) == index
  {
    var t := Target(prefix, index, source);
    var d := ToDecimal(index);
    var e := Extension(source);
    BitmapExtension(source);
    ExtensionOfDottedSuffix(prefix + d, e);
    assert t == prefix + d + e;
    assert t[|prefix|..|t| - 4] == d;
    FourDigits(index);
    ValueOfToDecimal(index);
  }

  /**
   * The prefix and count checks are what keep every sequential target a
   * bitmap name whose part before the extension fits in eight characters.
   */
  lemma AcceptedTargetsFit(prefix: string, bitmaps: seq<string>)
    requires |prefix| <= MaxPrefixLength && |bitmaps| <= MaxBitmaps
    requires forall k :: 0 <= k < |bitmaps| ==> IsBitmapName(bitmaps[k])
    ensures forall k :: 0 <= k < |bitmaps| ==>
      IsBitmapName(Targets(prefix, bitmaps)[k]) && |Targets(prefix, bitmaps)[k]| <= 12
  {
    forall k | 0 <= k < |bitmaps|
      ensures IsBitmapName(Targets(prefix, bitmaps)[k]) && |Targets(prefix, bitmaps)[k]| <= 12
    {
      TargetShape(prefix, k, bitmaps[k]);
    }
  }

  /**
   * Measured as `String.Length` measures it, in UTF-16 code units, the part
   * of a target before its extension fits in eight whenever the prefix passes
   * the length check and the counter stays below the count limit.
   */
  lemma TargetStemFits(prefix: string, index: nat)
    requires Utf16Length(prefix) <= MaxPrefixLength && index < MaxBitmaps
    ensures Utf16Length(prefix + ToDecimal(index)) <= 8
  {
    var d := ToDecimal(index);
    Utf16LengthAppend(prefix, d);
    Utf16LengthIsLength(d);
    assert forall k :: 0 <= k < |d| ==> InBasicPlane(d[k]) by {
      forall k | 0 <= k < |d| ensures InBasicPlane(d[k]) { assert IsDigit(d[k]); }
    }
    FourDigits(index);
  }

  /** A target always holds the counter's digits, so it never names the folder itself. */
  lemma TargetNotEmpty(prefix: string, index: nat, source: string)
    ensures |Target(prefix, index, source)| >= |prefix| + 1
  {
    assert |ToDecimal(index)| >= 1;
  }

  /** Different counter values give different targets. */
  lemma TargetInjective(prefix: string, i: nat, j: nat, si: string, sj: string)
    requires IsBitmapName(si) && IsBitmapName(sj)
    ensures Target(prefix, i, si) == Target(prefix, j, sj) ==> i == j
  {
    BitmapExtension(si);
    BitmapExtension(sj);
    var di, dj := ToDecimal(i), ToDecimal(j);
    var ti, tj := Target(prefix, i, si), Target(prefix, j, sj);
    if ti == tj {
      assert |di| == |dj|;
      assert ti[|prefix|..|prefix| + |di|] == di;
      assert tj[|prefix|..|prefix| + |dj|] == dj;
      ToDecimalInjective(i, j);
    }
  }

  /** For the sequential pass, a move is blocked exactly when its target collides. */
  lemma SequentialBlockedIffCollides(dir: Dir, prefix: string, bitmaps: seq<string>, i: nat)
    requires i < |bitmaps| && forall k :: 0 <= k < |bitmaps| ==> IsBitmapName(bitmaps[k])
    ensures var targets := Targets(prefix, bitmaps);
      Blocked(dir, bitmaps, targets, i) <==> Collides(dir, bitmaps, targets, i)
  {
    var targets := Targets(prefix, bitmaps);
    assert targets[i] == Target(prefix, i, bitmaps[i]);
    assert |targets[i]| >= |ToDecimal(i)| >= 1;
    if targets[i] in targets[..i] {
      var k :| 0 <= k < i && targets[..i][k] == targets[i];
      assert targets[k] == Target(prefix, k, bitmaps[k]);
      TargetInjective(prefix, k, i, bitmaps[k], bitmaps[i]);
    }
  }

  /**
   * The sequential pass over distinct bitmaps of the folder completes
   * exactly when no target collides, and then every bitmap sits under its
   * target with its contents. Otherwise it aborts at the first colliding
   * target, with the earlier bitmaps renamed and that one and all later ones
   * untouched.
   */
  lemma SequentialRenameOutcome(dir: Dir, bitmaps: seq<string>, prefix: string)
    requires Plan(dir, bitmaps, Targets(prefix, bitmaps))
    requires forall k :: 0 <= k < |bitmaps| ==> IsBitmapName(bitmaps[k])
    ensures var r := SequentialRename(dir, bitmaps, prefix);
      var targets := Targets(prefix, bitmaps);
      && (r.Completed? <==> forall i :: 0 <= i < |bitmaps| ==> !Collides(dir, bitmaps, targets, i))
      && (r.Completed? ==>
            && r.report == Processed(|bitmaps|)
            && MovedUpTo(dir, bitmaps, targets, |bitmaps|, r.dir))
      && (r.Aborted? ==>
            && r.error.TargetExists?
            && r.error.index < |bitmaps|
            && r.error.target == targets[r.error.index]
            && Collides(dir, bitmaps, targets, r.error.index)
            && (forall k :: 0 <= k < r.error.index ==> !Collides(dir, bitmaps, targets, k))
            && MovedUpTo(dir, bitmaps, targets, r.error.index, r.dir))
  {
    var targets := Targets(prefix, bitmaps);
    forall i | 0 <= i < |bitmaps|
      ensures Blocked(dir, bitmaps, targets, i) <==> Collides(dir, bitmaps, targets, i)
    {
      SequentialBlockedIffCollides(dir, prefix, bitmaps, i);
    }
    MoveEachOutcome(dir, bitmaps, targets, false);
  }

  /** Corollary of SequentialRenameOutcome: the sequential pass completes exactly when no target collides. */
  lemma SequentialCompletesIff(dir: Dir, bitmaps: seq<string>, prefix: string)
    requires Plan(dir, bitmaps, Targets(prefix, bitmaps))
    requires forall k :: 0 <= k < |bitmaps| ==> IsBitmapName(bitmaps[k])
    ensures SequentialRename(dir, bitmaps, prefix).Completed?
        <==> forall i :: 0 <= i < |bitmaps| ==> !Collides(dir, bitmaps, Targets(prefix, bitmaps), i)
  {
    SequentialRenameOutcome(dir, bitmaps, prefix);
  }

  /**
   * A sequential run that passes the checks renames the bitmaps in listing
   * order, as the pass above describes, and the files that are not bitmaps
   * keep their names and contents whatever happens.
   */
  lemma SequentialRunOutcome(args: Arguments, dir: Dir, listing: seq<string>, randomName: nat -> string)
    requires IsListingOf(listing, dir)
    requires !args.randomRename && Utf16Length(args.renamePrefix) <= MaxPrefixLength
    requires |GetBitmaps(listing)| <= MaxBitmaps
    ensures var r := Run(args, true, dir, listing, randomName);
      var bitmaps := GetBitmaps(listing);
      var targets := Targets(args.renamePrefix, bitmaps);
      && Plan(dir, bitmaps, targets)
      && r == SequentialRename(dir, bitmaps, args.renamePrefix)
      && (r.Completed? <==> forall i :: 0 <= i < |bitmaps| ==> !Collides(dir, bitmaps, targets, i))
      && (r.Aborted? ==> r.error.TargetExists? && r.error.index < |bitmaps|)
      && (forall x :: x in dir && !IsBitmapName(x) ==> x in r.dir && r.dir[x] == dir[x])
  {
    var bitmaps := GetBitmaps(listing);
    GetBitmapsMembers(listing);
    GetBitmapsDistinct(listing);
    GetBitmapsAreBitmaps(listing);
    var targets := Targets(args.renamePrefix, bitmaps);
    assert Plan(dir, bitmaps, targets);
    var r := Run(args, true, dir, listing, randomName);
    assert r == SequentialRename(dir, bitmaps, args.renamePrefix);
    SequentialRenameOutcome(dir, bitmaps, args.renamePrefix);
    var moved := if r.Completed? then |bitmaps| else r.error.index;
    assert MovedUpTo(dir, bitmaps, targets, moved, r.dir);
    forall x | x in dir && !IsBitmapName(x)
      ensures x in r.dir && r.dir[x] == dir[x]
    {
      assert NonSource(dir, bitmaps, x);
    }
  }

  /**
   * The existence check also sees the file being renamed: a bitmap that
   * already bears its own target name stops the run at or before it.
   */
  lemma SelfNamedBitmapAborts(args: Arguments, dir: Dir, listing: seq<string>, randomName: nat -> string)
    requires IsListingOf(listing, dir)
    requires !args.randomRename && Utf16Length(args.renamePrefix) <= MaxPrefixLength
    requires |GetBitmaps(listing)| <= MaxBitmaps
    ensures var r := Run(args, true, dir, listing, randomName);
      var bitmaps := GetBitmaps(listing);
      forall i :: 0 <= i < |bitmaps| && bitmaps[i] == Target(args.renamePrefix, i, bitmaps[i]) ==>
        r.Aborted? && r.error.TargetExists? && r.error.index <= i
  {
    var bitmaps := GetBitmaps(listing);
    GetBitmapsMembers(listing);
    GetBitmapsDistinct(listing);
    GetBitmapsAreBitmaps(listing);
    var targets := Targets(args.renamePrefix, bitmaps);
    assert Plan(dir, bitmaps, targets);
    assert Run(args, true, dir, listing, randomName) == SequentialRename(dir, bitmaps, args.renamePrefix);
    SequentialRenameOutcome(dir, bitmaps, args.renamePrefix);
    forall i | 0 <= i < |bitmaps| && bitmaps[i] == Target(args.renamePrefix, i, bitmaps[i])
      ensures Collides(dir, bitmaps, targets, i)
    {
      assert bitmaps[i] !in bitmaps[..i];
    }
  }

  /**
   * A random run needs no prefix or count check. It completes exactly when no
   * move is blocked, and then every bitmap sits under a ".bmp" name with its
   * contents; otherwise it aborts at the first blocked move with the earlier
   * moves made and the rest not.
   */
  lemma RandomRunOutcome(args: Arguments, dir: Dir, listing: seq<string>, randomName: nat -> string)
    requires IsListingOf(listing, dir) && args.randomRename
    ensures var r := Run(args, true, dir, listing, randomName);
      var bitmaps := GetBitmaps(listing);
      var targets := RandomTargets(randomName, |bitmaps|);
      && Plan(dir, bitmaps, targets)
      && (r.Completed? <==> forall i :: 0 <= i < |bitmaps| ==> !Blocked(dir, bitmaps, targets, i))
      && (r.Completed? ==>
            && r.report == ProcessingFinished
            && MovedUpTo(dir, bitmaps, targets, |bitmaps|, r.dir)
            && forall k :: 0 <= k < |bitmaps| ==> IsBitmapName(targets[k]))
      && (r.Aborted? ==>
            && r.error.MoveFailed?
            && r.error.index < |bitmaps|
            && r.error.target == targets[r.error.index]
            && Blocked(dir, bitmaps, targets, r.error.index)
            && (forall k :: 0 <= k < r.error.index ==> !Blocked(dir, bitmaps, targets, k))
            && MovedUpTo(dir, bitmaps, targets, r.error.index, r.dir))
  {
    var bitmaps := GetBitmaps(listing);
    GetBitmapsMembers(listing);
    GetBitmapsDistinct(listing);
    GetBitmapsAreBitmaps(listing);
    var targets := RandomTargets(randomName, |bitmaps|);
    assert Plan(dir, bitmaps, targets);
    var r := Run(args, true, dir, listing, randomName);
    var m := MoveEach(dir, bitmaps, targets, true, 0);
    assert r == RandomRename(dir, bitmaps, randomName);
    MoveEachOutcome(dir, bitmaps, targets, true);
    if m.AllMoved? {
      assert r == Completed(m.dir, ProcessingFinished);
    } else {
      assert r == Aborted(MoveFailed(m.index, targets[m.index]), m.dir);
    }
    if r.Completed? {
      forall k | 0 <= k < |bitmaps|
        ensures IsBitmapName(targets[k])
      {
        assert !Blocked(dir, bitmaps, targets, k);
        RandomTargetIsBitmap(randomName, |bitmaps|, k);
      }
    }
  }

  /** Any non-empty random target is a bitmap name. */
  lemma RandomTargetIsBitmap(randomName: nat -> string, n: nat, k: nat)
    requires k < n && RandomTargets(randomName, n)[k] != ""
    ensures IsBitmapName(RandomTargets(randomName, n)[k])
  {
    var t := RandomTargets(randomName, n)[k];
    assert t == ChangeExtension(randomName(k), "bmp");
    assert NoDot("bmp");
    ChangeExtensionSetsExtension(randomName(k), "bmp");
    assert Extension(t) == ".bmp";
  }
}
