/**
 * One flat folder: each bare file name maps to the identity of the file's
 * contents. The renamer never reads or writes contents, only names.
 */
module Folder {

  type ContentId = nat

  type Dir = map<string, ContentId>

  predicate Distinct(s: seq<string>) {
    forall i, j :: 0 <= i < j < |s| ==> s[i] != s[j]
  }

  /** `listing` is what a non-recursive enumeration of `dir` can return: every file once, in some order. */
  predicate IsListingOf(listing: seq<string>, dir: Dir) {
    && Distinct(listing)
    && (forall x :: x in listing ==> x in dir)
    && (forall x :: x in dir ==> x in listing)
  }

  /** File.Move onto a free name: the file keeps its contents under the new name. */
  function Move(dir: Dir, source: string, target: string): (r: Dir)
    requires source in dir && target !in dir
    ensures target in r && r[target] == dir[source] && source !in r
    ensures forall x :: x in dir && x != source ==> x in r && r[x] == dir[x]
    ensures forall x :: x in r ==> x == target || (x in dir && x != source)
    ensures |r| == |dir|
  {
    var rest := dir - {source};
    assert rest.Keys == dir.Keys - {source};
    rest[target := dir[source]]
  }

  /** How many files of the folder hold contents `c`. */
  function CopiesOf(dir: Dir, c: ContentId): nat {
    |set x | x in dir && dir[x] == c|
  }

  /**
   * Two folders hold the same multiset of contents, whatever the file
   * names: every content is held by as many files in one as in the other.
   */
  ghost predicate SameContents(a: Dir, b: Dir) {
    forall c :: CopiesOf(a, c) == CopiesOf(b, c)
  }

  /** A move neither loses nor duplicates contents. */
  lemma MoveKeepsContents(dir: Dir, source: string, target: string)
    requires source in dir && target !in dir
    ensures SameContents(Move(dir, source, target), dir)
  {
    forall c
      ensures CopiesOf(Move(dir, source, target), c) == CopiesOf(dir, c)
    {
      MoveKeepsCopies(dir, source, target, c);
    }
  }

  /** The files holding `c` after a move are those before, with the moved one renamed. */
  lemma MoveKeepsCopies(dir: Dir, source: string, target: string, c: ContentId)
    requires source in dir && target !in dir
    ensures CopiesOf(Move(dir, source, target), c) == CopiesOf(dir, c)
  {
    if dir[source] == c {
      MovedCopies(dir, source, target, c);
    } else {
      OtherCopies(dir, source, target, c);
    }
  }

  lemma MovedCopies(dir: Dir, source: string, target: string, c: ContentId)
    requires source in dir && target !in dir && dir[source] == c
    ensures (set x | x in Move(dir, source, target) && Move(dir, source, target)[x] == c)
         == (set x | x in dir && dir[x] == c) - {source} + {target}
    ensures |(set x | x in dir && dir[x] == c) - {source} + {target}| == CopiesOf(dir, c)
  {
    var r := Move(dir, source, target);
    var before := set x | x in dir && dir[x] == c;
    forall x | x in r && r[x] == c && x != target
      ensures x in before - {source}
    {
      assert x in dir && x != source;
    }
    SwapOne(before, source, target);
  }

  /** Trading one member of a set for a newcomer keeps its size. */
  lemma SwapOne(s: set<string>, gone: string, added: string)
    requires gone in s && added !in s
    ensures |s - {gone} + {added}| == |s|
  {
    assert |s - {gone}| == |s| - 1;
  }

  lemma OtherCopies(dir: Dir, source: string, target: string, c: ContentId)
    requires source in dir && target !in dir && dir[source] != c
    ensures (set x | x in Move(dir, source, target) && Move(dir, source, target)[x] == c)
         == (set x | x in dir && dir[x] == c)
  {
    var r := Move(dir, source, target);
    forall x | x in r && r[x] == c
      ensures x in dir && dir[x] == c
    {
      assert x != target;
      assert x in dir && x != source;
    }
  }
}
