/**
 * Swift's `String.split(separator:)` with its default arguments: the string
 * is cut at every occurrence of the separator and empty pieces are dropped
 * (`omittingEmptySubsequences: true`, no split limit).
 */
module SwiftStrings {

  /** Index of the first `c` in `s`, or `|s|` when `s` has none. */
  function IndexOf(s: string, c: char): (k: nat)
    ensures k <= |s|
    ensures forall i :: 0 <= i < k ==> s[i] != c
    ensures k < |s| ==> s[k] == c
  {
    if s == [] || s[0] == c then 0 else 1 + IndexOf(s[1..], c)
  }

  /** Number of separators at the start of `s`. */
  function LeadingCount(s: string, c: char): (k: nat)
    ensures k <= |s|
    ensures forall i :: 0 <= i < k ==> s[i] == c
    ensures k < |s| ==> s[k] != c
  {
    if s != [] && s[0] == c then 1 + LeadingCount(s[1..], c) else 0
  }

  /** The non-empty pieces of `s` between separators, in order. */
  function Split(s: string, separator: char): (pieces: seq<string>)
    ensures forall i :: 0 <= i < |pieces| ==> pieces[i] != [] && separator !in pieces[i]
    decreases |s|
  {
    if s == [] then []
    else if s[0] == separator then Split(s[1..], separator)
    else
      var k := IndexOf(s, separator);
      [s[..k]] + Split(s[k..], separator)
  }

  /** The pieces glued back together with one separator between neighbours. */
  function Join(pieces: seq<string>, separator: char): string
  {
    if pieces == [] then []
    else if |pieces| == 1 then pieces[0]
    else pieces[0] + [separator] + Join(pieces[1..], separator)
  }

  /** Concatenation of all pieces. */
  function Concat(pieces: seq<string>): string
  {
    if pieces == [] then [] else pieces[0] + Concat(pieces[1..])
  }

  /** `s` with every occurrence of `c` removed. */
  function Without(s: string, c: char): (r: string)
  {
    if s == [] then []
    else if s[0] == c then Without(s[1..], c)
    else [s[0]] + Without(s[1..], c)
  }

  /** The reference reading of "first segment": skip the leading separators, then take everything up to the next one. */
  function FirstSegment(s: string, separator: char): string
  {
    var t := s[LeadingCount(s, separator)..];
    t[..IndexOf(t, separator)]
  }

  lemma {:induction false} IndexOfPrefix(p: string, separator: char, rest: string)
    requires separator !in p
    ensures IndexOf(p + [separator] + rest, separator) == |p|
  {
    var s := p + [separator] + rest;
    if p != [] {
      assert s[0] == p[0] && s[1..] == p[1..] + [separator] + rest;
      IndexOfPrefix(p[1..], separator, rest);
    }
  }

  lemma {:induction false} IndexOfFree(p: string, separator: char)
    requires separator !in p
    ensures IndexOf(p, separator) == |p|
  {
    if p != [] {
      IndexOfFree(p[1..], separator);
    }
  }

  /** A separator ends the search: the first separator of `a + [separator] + b` is the first of `a`, or the added one. */
  lemma {:induction false} IndexOfBefore(a: string, separator: char, b: string)
    ensures IndexOf(a + [separator] + b, separator) == IndexOf(a, separator)
  {
    var s := a + [separator] + b;
    if a != [] && a[0] != separator {
      assert s[0] == a[0] && s[1..] == a[1..] + [separator] + b;
      IndexOfBefore(a[1..], separator, b);
    }
  }

  /** A string without the separator splits into itself alone (or nothing, when empty). */
  lemma SplitOfFree(p: string, separator: char)
    requires separator !in p
    ensures Split(p, separator) == if p == [] then [] else [p]
  {
    if p != [] {
      IndexOfFree(p, separator);
      assert p[..|p|] == p;
      assert p[|p|..] == [];
    }
  }

  /**
   * Splitting at one separator splits each side on its own: with SplitOfFree
   * this fixes every piece, as the maximal separator-free runs in order.
   */
  lemma {:induction false} SplitAtSeparator(a: string, separator: char, b: string)
    ensures Split(a + [separator] + b, separator) == Split(a, separator) + Split(b, separator)
    decreases |a|
  {
    var s := a + [separator] + b;
    if a == [] {
      assert s[1..] == b;
    } else if a[0] == separator {
      assert s[1..] == a[1..] + [separator] + b;
      SplitAtSeparator(a[1..], separator, b);
    } else {
      var k := IndexOf(a, separator);
      IndexOfBefore(a, separator, b);
      assert s[..k] == a[..k];
      assert s[k..] == a[k..] + [separator] + b;
      SplitAtSeparator(a[k..], separator, b);
    }
  }

  /** Splitting undoes joining, for pieces that are non-empty and free of the separator. */
  lemma {:induction false} SplitJoin(pieces: seq<string>, separator: char)
    requires forall i :: 0 <= i < |pieces| ==> pieces[i] != [] && separator !in pieces[i]
    ensures Split(Join(pieces, separator), separator) == pieces
  {
    if |pieces| == 1 {
      SplitOfFree(pieces[0], separator);
    } else if |pieces| > 1 {
      var p, rest := pieces[0], Join(pieces[1..], separator);
      var s := p + [separator] + rest;
      IndexOfPrefix(p, separator, rest);
      assert s[0] == p[0];
      assert s[..|p|] == p;
      assert s[|p|..] == [separator] + rest;
      assert ([separator] + rest)[1..] == rest;
      SplitJoin(pieces[1..], separator);
      assert pieces == [p] + pieces[1..];
    }
  }

  lemma {:induction false} WithoutAppend(a: string, b: string, c: char)
    ensures Without(a + b, c) == Without(a, c) + Without(b, c)
  {
    if a != [] {
      assert (a + b)[0] == a[0] && (a + b)[1..] == a[1..] + b;
      WithoutAppend(a[1..], b, c);
    } else {
      assert a + b == b;
    }
  }

  lemma {:induction false} WithoutFree(a: string, c: char)
    requires c !in a
    ensures Without(a, c) == a
  {
    if a != [] {
      WithoutFree(a[1..], c);
    }
  }

  /** Splitting loses exactly the separators: every other character survives, in order. */
  lemma {:induction false} SplitKeepsOtherCharacters(s: string, separator: char)
    ensures Concat(Split(s, separator)) == Without(s, separator)
    decreases |s|
  {
    if s != [] {
      if s[0] == separator {
        SplitKeepsOtherCharacters(s[1..], separator);
      } else {
        var k := IndexOf(s, separator);
        var pieces := [s[..k]] + Split(s[k..], separator);
        assert pieces[1..] == Split(s[k..], separator);
        SplitKeepsOtherCharacters(s[k..], separator);
        assert s == s[..k] + s[k..];
        WithoutAppend(s[..k], s[k..], separator);
        WithoutFree(s[..k], separator);
      }
    }
  }

  /** The first piece of a split is the reference first segment; there is none exactly when `s` is all separators. */
  lemma {:induction false} SplitFirstIsFirstSegment(s: string, separator: char)
    ensures Split(s, separator) == [] <==> LeadingCount(s, separator) == |s|
    ensures Split(s, separator) != [] ==> Split(s, separator)[0] == FirstSegment(s, separator)
    decreases |s|
  {
    if s != [] {
      if s[0] == separator {
        assert s[1..][LeadingCount(s[1..], separator)..] == s[LeadingCount(s, separator)..];
        SplitFirstIsFirstSegment(s[1..], separator);
      } else {
        assert s[0..] == s;
      }
    }
  }
}
