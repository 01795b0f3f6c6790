/**
 * The two System.IO.Path helpers the renamer relies on, for bare file names
 * of one flat folder (no directory separators).
 */
module Paths {
  import opened Wrappers

  predicate NoDot(s: string) {
    forall j :: 0 <= j < |s| ==> s[j] != '.'
  }

  /** Position of the last '.' in `name`, if there is one. */
  function LastDot(name: string): (r: Option<nat>)
    ensures r.Some? ==> r.value < |name| && name[r.value] == '.' && NoDot(name[r.value + 1..])
    ensures r.None? ==> NoDot(name)
  {
    if |name| == 0 then None
    else if name[|name| - 1] == '.' then Some(|name| - 1)
    else
      var r := LastDot(name[..|name| - 1]);
      assert r.Some? ==> name[r.value + 1..] == name[..|name| - 1][r.value + 1..] + [name[|name| - 1]];
      r
  }

  /**
   * Path.GetExtension: the suffix that starts at the last '.', including the
   * dot; empty when there is no dot or the dot is the final character.
   */
  function Extension(name: string): (e: string)
    ensures e == "" <==> NoDot(name) || (|name| > 0 && name[|name| - 1] == '.')
    ensures e != "" ==> && 2 <= |e| <= |name|
                        && e == name[|name| - |e|..]
                        && e[0] == '.'
                        && NoDot(e[1..])
  {
    match LastDot(name)
    case None => ""
    case Some(i) =>
      if i == |name| - 1 then ""
      else
        assert !NoDot(name) by { assert name[i] == '.'; }
        name[i..]
  }

  /** A dotted suffix without further dots is the extension of any name it ends. */
  lemma ExtensionOfDottedSuffix(stem: string, e: string)
    requires 2 <= |e| && e[0] == '.' && NoDot(e[1..])
    ensures Extension(stem + e) == e
  {
    var name := stem + e;
    assert name[|stem|] == '.';
    assert !NoDot(name);
    assert name[|name| - 1] == e[|e| - 1] == e[1..][|e| - 2];
    var x := Extension(name);
    assert x == name[|name| - |e|..] == e;
  }

  /** The form Path.ChangeExtension gives a new extension: with exactly one leading dot. */
  function DottedExtension(ext: string): string {
    if |ext| > 0 && ext[0] == '.' then ext else "." + ext
  }

  /**
   * Path.ChangeExtension(name, ext) for a non-null `ext`: the part of `name`
   * before its last '.' (all of it when there is none) followed by the dotted
   * extension; the empty name stays empty.
   */
  function ChangeExtension(name: string, ext: string): (r: string)
    ensures name == "" ==> r == ""
    ensures name != "" ==>
      var n := |r| - |DottedExtension(ext)|;
      && 0 <= n <= |name|
      && r[n..] == DottedExtension(ext)
      && r[..n] == name[..n]
      && (n == |name| ==> NoDot(name))
      && (n < |name| ==> name[n] == '.' && NoDot(name[n + 1..]))
  {
    if name == "" then ""
    else
      match LastDot(name)
      case None => name + DottedExtension(ext)
      case Some(i) => name[..i] + DottedExtension(ext)
  }

  /** Renaming a non-empty name to extension `ext` (no dots) gives it that extension. */
  lemma ChangeExtensionSetsExtension(name: string, ext: string)
    requires name != "" && 1 <= |ext| && NoDot(ext)
    ensures Extension(ChangeExtension(name, ext)) == "." + ext
  {
    var r := ChangeExtension(name, ext);
    var d := "." + ext;
    assert DottedExtension(ext) == d;
    assert d[1..] == ext;
    assert r == r[..|r| - |d|] + d;
    ExtensionOfDottedSuffix(r[..|r| - |d|], d);
  }
}
