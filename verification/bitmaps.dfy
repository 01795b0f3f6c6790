/**
 * GetBitmaps: the files of a folder listing whose extension is ".bmp",
 * compared as String.Equals with StringComparison.OrdinalIgnoreCase does for
 * ASCII text, kept in listing order.
 */
module Bitmaps {
  import opened Paths
  import opened Folder

  /** Ordinal upper-casing of one character; only the ASCII letters a-z change. */
  function UpperAscii(c: char): char {
    if 'a' <= c <= 'z' then ((c as int) - 32) as char else c
  }

  predicate EqualsIgnoreCase(a: string, b: string) {
    |a| == |b| && forall i :: 0 <= i < |a| ==> UpperAscii(a[i]) == UpperAscii(b[i])
  }

  predicate IsBitmapName(name: string) {
    EqualsIgnoreCase(Extension(name), ".bmp")
  }

  /**
   * Reference definition: a name is a bitmap exactly when its last four
   * characters spell ".bmp" in any letter case.
   */
  lemma BitmapNameBySuffix(name: string)
    ensures IsBitmapName(name) <==> |name| >= 4 && EqualsIgnoreCase(name[|name| - 4..], ".bmp")
  {
    var n := |name|;
    if n >= 4 && EqualsIgnoreCase(name[n - 4..], ".bmp") {
      var s := name[n - 4..];
      assert UpperAscii(s[0]) == '.' && UpperAscii(s[1]) == 'B';
      assert UpperAscii(s[2]) == 'M' && UpperAscii(s[3]) == 'P';
      assert name[n - 4] == '.';
      assert name[n - 3] != '.' && name[n - 2] != '.' && name[n - 1] != '.';
      var e := Extension(name);
      assert !NoDot(name);
      assert e != "";
    }
  }

  /** The bitmaps of a listing, in listing order. */
  function GetBitmaps(files: seq<string>): (r: seq<string>)
    ensures |r| <= |files|
  {
    if |files| == 0 then []
    else
      var rest := GetBitmaps(files[1..]);
      if IsBitmapName(files[0]) then [files[0]] + rest else rest
  }

  /** The filter keeps exactly the bitmaps of the listing. */
  lemma {:induction false} GetBitmapsMembers(files: seq<string>)
    ensures forall x :: x in GetBitmaps(files) <==> x in files && IsBitmapName(x)
  {
    if |files| != 0 {
      GetBitmapsMembers(files[1..]);
      assert files == [files[0]] + files[1..];
    }
  }

  /** Every name the filter returns is a bitmap name. */
  lemma GetBitmapsAreBitmaps(files: seq<string>)
    ensures forall k :: 0 <= k < |GetBitmaps(files)| ==> IsBitmapName(GetBitmaps(files)[k])
  {
    var r := GetBitmaps(files);
    GetBitmapsMembers(files);
    forall k | 0 <= k < |r|
      ensures IsBitmapName(r[k])
    {
      assert r[k] in r;
    }
  }

  /** A listing without repeats gives bitmaps without repeats. */
  lemma {:induction false} GetBitmapsDistinct(files: seq<string>)
    ensures Distinct(files) ==> Distinct(GetBitmaps(files))
  {
    if |files| != 0 {
      GetBitmapsMembers(files[1..]);
      GetBitmapsDistinct(files[1..]);
      assert files == [files[0]] + files[1..];
      assert Distinct(files) ==> files[0] !in files[1..];
    }
  }

  /** One step of the filter: its first file, then the rest. */
  lemma GetBitmapsUnfold(files: seq<string>)
    requires |files| > 0
    ensures GetBitmaps(files) == (if IsBitmapName(files[0]) then [files[0]] else []) + GetBitmaps(files[1..])
  {
  }

  /*
   * Two generic sequence facts, stated apart so that GetBitmapsAppend's proof
   * never reasons about equality of sequences of strings inline, which makes
   * it depend on the solver's random seed.
   */

  lemma TailOfAppend<T>(a: seq<T>, b: seq<T>)
    requires |a| > 0
    ensures (a + b)[0] == a[0] && (a + b)[1..] == a[1..] + b
  {
  }

  lemma AppendAssoc<T>(a: seq<T>, b: seq<T>, c: seq<T>)
    ensures a + (b + c) == (a + b) + c
  {
  }

  /** Filtering commutes with concatenation, so the listing's order is kept. */
  lemma {:induction false} GetBitmapsAppend(a: seq<string>, b: seq<string>)
    ensures GetBitmaps(a + b) == GetBitmaps(a) + GetBitmaps(b)
    decreases |a|
  {
    if |a| == 0 {
      assert a + b == b;
    } else {
      var h := if IsBitmapName(a[0]) then [a[0]] else [];
      var x, y := GetBitmaps(a[1..]), GetBitmaps(b);
      TailOfAppend(a, b);
      GetBitmapsUnfold(a + b);
      GetBitmapsUnfold(a);
      GetBitmapsAppend(a[1..], b);
      AppendAssoc(h, x, y);
    }
  }

  /** A listing of one file keeps it exactly when it is a bitmap. */
  lemma GetBitmapsSingle(name: string)
    ensures GetBitmaps([name]) == if IsBitmapName(name) then [name] else []
  {
    assert [name][1..] == [];
  }

  /** Filtering a listing one file at a time. */
  lemma GetBitmapsCons(name: string, rest: seq<string>)
    ensures GetBitmaps([name] + rest) == (if IsBitmapName(name) then [name] else []) + GetBitmaps(rest)
  {
    GetBitmapsAppend([name], rest);
    GetBitmapsSingle(name);
  }

  /** Names the filter keeps: any letter case, and a bare ".bmp". */
  lemma BitmapNameExamples()
    ensures IsBitmapName("x.BMP") && IsBitmapName("a.bMp") && IsBitmapName(".bmp")
  {
    assert UpperAscii('b') == 'B' && UpperAscii('m') == 'M' && UpperAscii('p') == 'P';
    assert EqualsIgnoreCase(".BMP", ".bmp") && EqualsIgnoreCase(".bMp", ".bmp");
    BitmapNameBySuffix("x.BMP");
    assert "x.BMP"[1..] == ".BMP";
    BitmapNameBySuffix("a.bMp");
    assert "a.bMp"[1..] == ".bMp";
    BitmapNameBySuffix(".bmp");
    assert ".bmp"[0..] == ".bmp";
  }

  /** Names the filter drops: ".bmp" not at the end, no dot, a trailing dot. */
  lemma NotBitmapNameExamples()
    ensures !IsBitmapName("x.bmp.txt") && !IsBitmapName("bmp") && !IsBitmapName("x.bmp.")
  {
    InnerBmpIsNoBitmap();
    TrailingDotIsNoBitmap();
  }

  lemma InnerBmpIsNoBitmap()
    ensures !IsBitmapName("x.bmp.txt")
  {
    BitmapNameBySuffix("x.bmp.txt");
    assert "x.bmp.txt"[5..] == ".txt";
  }

  lemma TrailingDotIsNoBitmap()
    ensures !IsBitmapName("x.bmp.")
  {
    BitmapNameBySuffix("x.bmp.");
    assert "x.bmp."[2..] == "bmp.";
  }
}
