/** Concrete runs of the renamer on small folders. */
module Scenarios {
  import opened Folder
  import opened Numerals
  import opened Paths
  import opened Bitmaps
  import opened Moves
  import opened Renamer
  import opened Text

  /** The random-name source; unused by sequential runs. */
  function NoRandomNames(i: nat): string {
    ""
  }

  /** A dot and three letters spelling "bmp" in some letter case: the extension the filter accepts. */
  predicate BmpSpelling(e: string) {
    |e| == 4 && e[0] == '.' && NoDot(e[1..]) && EqualsIgnoreCase(e, ".bmp")
  }

  lemma BmpSpellings()
    ensures BmpSpelling(".bmp") && BmpSpelling(".BMP")
  {
    assert ".bmp"[1..] == "bmp";
    assert ".BMP"[1..] == "BMP";
  }

  /** A dot-free stem followed by a spelling of ".bmp" is a bitmap name with that extension. */
  lemma BmpExtension(stem: string, e: string)
    requires NoDot(stem) && BmpSpelling(e)
    ensures Extension(stem + e) == e
    ensures IsBitmapName(stem + e)
  {
    ExtensionOfDottedSuffix(stem, e);
  }

  lemma BmpName(name: string, stem: string, e: string)
    requires NoDot(stem) && BmpSpelling(e) && name == stem + e
    ensures IsBitmapName(name) && Extension(name) == e
  {
    BmpExtension(stem, e);
  }

  /** A one-character stem before ".BMP". */
  lemma UpperBmpLetter(c: char)
    requires c != '.'
    ensures IsBitmapName([c, '.', 'B', 'M', 'P'])
  {
    assert [c, '.', 'B', 'M', 'P'] == [c] + ".BMP";
    BmpSpellings();
    BmpName([c, '.', 'B', 'M', 'P'], [c], ".BMP");
  }

  lemma SmallNumerals()
    ensures ToDecimal(0) == "0" && ToDecimal(1) == "1"
  {
  }

  lemma BitmapsOfTwo(x: string, y: string)
    requires IsBitmapName(x) && IsBitmapName(y)
    ensures GetBitmaps([x, y]) == [x, y]
  {
    assert [x, y][1..] == [y];
    GetBitmapsSingle(y);
  }

  lemma BitmapsOfThree(x: string, y: string, z: string)
    requires IsBitmapName(x) && !IsBitmapName(y) && IsBitmapName(z)
    ensures GetBitmaps([x, y, z]) == [x, z]
  {
    assert GetBitmaps([y, z]) == [z] by {
      assert [y, z] == [y] + [z];
      GetBitmapsCons(y, [z]);
      GetBitmapsSingle(z);
    }
    assert [x, y, z] == [x] + [y, z];
    GetBitmapsCons(x, [y, z]);
  }

  lemma AllBitmapsOfThree(x: string, y: string, z: string)
    requires IsBitmapName(x) && IsBitmapName(y) && IsBitmapName(z)
    ensures GetBitmaps([x, y, z]) == [x, y, z]
  {
    assert GetBitmaps([y, z]) == [y, z] by {
      BitmapsOfTwo(y, z);
    }
    assert [x, y, z] == [x] + [y, z];
    GetBitmapsCons(x, [y, z]);
  }

  lemma TargetsOfTwo(prefix: string, x: string, y: string)
    ensures Targets(prefix, [x, y]) == [Target(prefix, 0, x), Target(prefix, 1, y)]
  {
  }

  /** The target of a bitmap keeps the source's spelling of ".bmp". */
  lemma TargetOfBmp(prefix: string, i: nat, stem: string, e: string)
    requires NoDot(stem) && BmpSpelling(e)
    ensures Target(prefix, i, stem + e) == prefix + ToDecimal(i) + e
  {
    BmpExtension(stem, e);
  }

  // Scenario 1: "a.bmp", "notes.txt", "b.bmp" with prefix "p_".

  lemma NotesIsNoBitmap()
    ensures !IsBitmapName("notes.txt")
  {
    BitmapNameBySuffix("notes.txt");
    assert "notes.txt"[5..] == ".txt";
  }

  lemma ListingOneBitmaps()
    ensures GetBitmaps(["a.bmp", "notes.txt", "b.bmp"]) == ["a.bmp", "b.bmp"]
  {
    BmpSpellings();
    BmpExtension("a", ".bmp");
    assert "a" + ".bmp" == "a.bmp";
    BmpExtension("b", ".bmp");
    assert "b" + ".bmp" == "b.bmp";
    NotesIsNoBitmap();
    BitmapsOfThree("a.bmp", "notes.txt", "b.bmp");
  }

  lemma FirstTargetOne()
    ensures Target("p_", 0, "a.bmp") == "p_0.bmp"
  {
    BmpSpellings();
    TargetOfBmp("p_", 0, "a", ".bmp");
    assert "a" + ".bmp" == "a.bmp";
    SmallNumerals();
  }

  lemma SecondTargetOne()
    ensures Target("p_", 1, "b.bmp") == "p_1.bmp"
  {
    BmpSpellings();
    TargetOfBmp("p_", 1, "b", ".bmp");
    assert "b" + ".bmp" == "b.bmp";
    SmallNumerals();
  }

  lemma TargetsOne()
    ensures Targets("p_", ["a.bmp", "b.bmp"]) == ["p_0.bmp", "p_1.bmp"]
  {
    TargetsOfTwo("p_", "a.bmp", "b.bmp");
    FirstTargetOne();
    SecondTargetOne();
  }

  lemma FirstMoveOne()
    ensures Move(map["a.bmp" := 1, "notes.txt" := 2, "b.bmp" := 3], "a.bmp", "p_0.bmp")
         == map["p_0.bmp" := 1, "notes.txt" := 2, "b.bmp" := 3]
  {
  }

  lemma SecondMoveOne()
    ensures Move(map["p_0.bmp" := 1, "notes.txt" := 2, "b.bmp" := 3], "b.bmp", "p_1.bmp")
         == map["p_0.bmp" := 1, "notes.txt" := 2, "p_1.bmp" := 3]
  {
  }

  lemma MovesOne()
    ensures MoveEach(map["a.bmp" := 1, "notes.txt" := 2, "b.bmp" := 3],
                     ["a.bmp", "b.bmp"], ["p_0.bmp", "p_1.bmp"], false, 0)
         == AllMoved(map["p_0.bmp" := 1, "notes.txt" := 2, "p_1.bmp" := 3], 2)
  {
    var sources, targets := ["a.bmp", "b.bmp"], ["p_0.bmp", "p_1.bmp"];
    var d0 := map["a.bmp" := 1, "notes.txt" := 2, "b.bmp" := 3];
    var d1 := map["p_0.bmp" := 1, "notes.txt" := 2, "b.bmp" := 3];
    var d2 := map["p_0.bmp" := 1, "notes.txt" := 2, "p_1.bmp" := 3];
    FirstMoveOne();
    SecondMoveOne();
    assert MoveEach(d2, sources, targets, false, 2) == AllMoved(d2, 2);
    assert MoveEach(d1, sources, targets, false, 1) == MoveEach(d2, sources, targets, false, 2);
    assert MoveEach(d0, sources, targets, false, 0) == MoveEach(d1, sources, targets, false, 1);
  }

  /**
   * Two bitmaps and a text file with prefix "p_": the bitmaps become
   * "p_0.bmp" and "p_1.bmp" in listing order, the text file stays, and two
   * files are reported.
   */
  lemma TwoBitmapsAndANote()
    ensures Run(Arguments("p_", false), true,
                map["a.bmp" := 1, "notes.txt" := 2, "b.bmp" := 3],
                ["a.bmp", "notes.txt", "b.bmp"], NoRandomNames)
         == Completed(map["p_0.bmp" := 1, "notes.txt" := 2, "p_1.bmp" := 3], Processed(2))
  {
    ListingOneBitmaps();
    TargetsOne();
    MovesOne();
  }

  // Scenario 2: "0.bmp" alone with no prefix.

  lemma ListingTwoBitmaps()
    ensures IsBitmapName("0.bmp")
    ensures GetBitmaps(["0.bmp"]) == ["0.bmp"]
  {
    BmpSpellings();
    BmpExtension("0", ".bmp");
    assert "0" + ".bmp" == "0.bmp";
    GetBitmapsSingle("0.bmp");
  }

  lemma TargetsTwo()
    ensures Targets("", ["0.bmp"]) == ["0.bmp"]
  {
    BmpSpellings();
    BmpName("0.bmp", "0", ".bmp");
    SmallNumerals();
    assert Target("", 0, "0.bmp") == "" + "0" + ".bmp" == "0.bmp";
    assert Targets("", ["0.bmp"])[0] == Target("", 0, "0.bmp");
  }

  /** "0.bmp" listed first with no prefix is its own target: the run stops before renaming anything. */
  lemma AlreadyNamedBitmap()
    ensures Run(Arguments("", false), true, map["0.bmp" := 1], ["0.bmp"], NoRandomNames)
         == Aborted(TargetExists(0, "0.bmp"), map["0.bmp" := 1])
  {
    ListingTwoBitmaps();
    TargetsTwo();
    assert MoveEach(map["0.bmp" := 1], ["0.bmp"], ["0.bmp"], false, 0)
        == Halted(0, TargetTaken, map["0.bmp" := 1]);
  }

  // Scenario 3: "a.bmp", "b.BMP", "1.BMP" listed in that order, no prefix.

  lemma ListingThreeBitmaps()
    ensures GetBitmaps(["a.bmp", "b.BMP", "1.BMP"]) == ["a.bmp", "b.BMP", "1.BMP"]
  {
    BmpSpellings();
    BmpName("a.bmp", "a", ".bmp");
    BmpName("b.BMP", "b", ".BMP");
    UpperBmpLetter('1');
    AllBitmapsOfThree("a.bmp", "b.BMP", "1.BMP");
  }

  lemma FirstTargetThree()
    ensures Target("", 0, "a.bmp") == "0.bmp"
  {
    BmpSpellings();
    TargetOfBmp("", 0, "a", ".bmp");
    assert "a" + ".bmp" == "a.bmp";
    SmallNumerals();
  }

  lemma SecondTargetThree()
    ensures Target("", 1, "b.BMP") == "1.BMP"
  {
    BmpSpellings();
    TargetOfBmp("", 1, "b", ".BMP");
    assert "b" + ".BMP" == "b.BMP";
    SmallNumerals();
  }

  lemma ThirdTargetThree()
    ensures Target("", 2, "1.BMP") == "2.BMP"
  {
    BmpSpellings();
    TargetOfBmp("", 2, "1", ".BMP");
    assert "1" + ".BMP" == "1.BMP";
    assert ToDecimal(2) == "2";
  }

  lemma TargetsThree()
    ensures Targets("", ["a.bmp", "b.BMP", "1.BMP"]) == ["0.bmp", "1.BMP", "2.BMP"]
  {
    var t := Targets("", ["a.bmp", "b.BMP", "1.BMP"]);
    FirstTargetThree();
    SecondTargetThree();
    ThirdTargetThree();
    assert t[0] == "0.bmp" && t[1] == "1.BMP" && t[2] == "2.BMP";
  }

  lemma MovesThree()
    ensures MoveEach(map["a.bmp" := 1, "b.BMP" := 2, "1.BMP" := 3],
                     ["a.bmp", "b.BMP", "1.BMP"], ["0.bmp", "1.BMP", "2.BMP"], false, 0)
         == Halted(1, TargetTaken, map["0.bmp" := 1, "b.BMP" := 2, "1.BMP" := 3])
  {
    var sources, targets := ["a.bmp", "b.BMP", "1.BMP"], ["0.bmp", "1.BMP", "2.BMP"];
    var d0 := map["a.bmp" := 1, "b.BMP" := 2, "1.BMP" := 3];
    var d1 := Move(d0, "a.bmp", "0.bmp");
    assert d1 == map["0.bmp" := 1, "b.BMP" := 2, "1.BMP" := 3];
    assert MoveEach(d1, sources, targets, false, 1) == Halted(1, TargetTaken, d1);
  }

  /**
   * The second target is the third bitmap's own name, which no earlier
   * rename cleared: the first rename stays done, the second and third
   * bitmaps keep their names, and the target kept the source's upper-case
   * extension.
   */
  lemma AbortKeepsEarlierRenames()
    ensures Run(Arguments("", false), true,
                map["a.bmp" := 1, "b.BMP" := 2, "1.BMP" := 3],
                ["a.bmp", "b.BMP", "1.BMP"], NoRandomNames)
         == Aborted(TargetExists(1, "1.BMP"), map["0.bmp" := 1, "b.BMP" := 2, "1.BMP" := 3])
  {
    ListingThreeBitmaps();
    TargetsThree();
    MovesThree();
  }

  // Scenario 4: prefix lengths are counted in UTF-16 code units.

  /**
   * Three mathematical double-struck A's (U+1D538) are three characters but
   * six UTF-16 code units, so the prefix check rejects them.
   */
  lemma WidePrefixRejected(dir: Dir, listing: seq<string>)
    ensures Run(Arguments("\U{1D538}\U{1D538}\U{1D538}", false), true, dir, listing, NoRandomNames)
         == Aborted(InvalidPrefix, dir)
  {
    var p := "\U{1D538}\U{1D538}\U{1D538}";
    assert Utf16Length(p[2..]) == 2;
    assert Utf16Length(p) == 6;
  }

  /** Four Latin letters take one code unit each and pass the check. */
  lemma NarrowPrefixAccepted()
    ensures Run(Arguments("abcd", false), true, map[], [], NoRandomNames) == Completed(map[], Processed(0))
  {
    var p := "abcd";
    assert Utf16Length(p[3..]) == 1;
    assert Utf16Length(p) == 4;
    assert GetBitmaps([]) == [];
  }
}
