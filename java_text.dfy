/**
 * The parts of `java.lang.String` the record formats rely on: splitting at a
 * one-character literal delimiter (`split(d)` and `split(d, 2)`), `String.join`,
 * and `equalsIgnoreCase`.
 */
module JavaText {
  import opened Outcomes

  /** Index of the first occurrence of `c` in `s`. */
  function IndexOf(s: string, c: char): (k: nat)
    requires c in s
    ensures k < |s| && s[k] == c && c !in s[..k]
  {
    if s[0] == c then 0
    else
      var k := IndexOf(s[1..], c);
      assert s[..k + 1] == [s[0]] + s[1..][..k];
      k + 1
  }

  /** Every piece of `s` between occurrences of `d`, empty pieces included. */
  function Pieces(s: string, d: char): (r: seq<string>)
    ensures |r| >= 1
    ensures forall i :: 0 <= i < |r| ==> d !in r[i]
  {
    if s == [] then [""]
    else
      var rest := Pieces(s[1..], d);
      if s[0] == d then [""] + rest else [[s[0]] + rest[0]] + rest[1..]
  }

  /** Java's `split` with limit 0 drops every empty string at the end of its result. */
  function DropTrailingEmpty(ps: seq<string>): (r: seq<string>)
    ensures |r| <= |ps| && r == ps[..|r|]
    ensures r == [] || r[|r| - 1] != ""
    ensures forall i :: |r| <= i < |ps| ==> ps[i] == ""
  {
    if ps == [] then []
    else if ps[|ps| - 1] == "" then DropTrailingEmpty(ps[..|ps| - 1])
    else ps
  }

  /**
   * `s.split(d)` for a delimiter that is not a regular-expression metacharacter:
   * if `d` does not occur, the whole string (so `""` gives `[""]`); otherwise the
   * pieces between the delimiters with the trailing empty ones removed.
   */
  function Split(s: string, d: char): (r: seq<string>)
    ensures forall i :: 0 <= i < |r| ==> d !in r[i]
    ensures d !in s ==> r == [s]
  {
    if d !in s then [s] else DropTrailingEmpty(Pieces(s, d))
  }

  /**
   * `s.split(d, 2)`: the text before the first `d` and everything after it.
   * `None` when `d` does not occur (Java then returns a one-element array).
   */
  function SplitAtFirst(s: string, d: char): (r: Option<(string, string)>)
    ensures r.None? <==> d !in s
    ensures r.Some? ==> d !in r.value.0 && s == r.value.0 + [d] + r.value.1
  {
    if d !in s then None
    else
      var k := IndexOf(s, d);
      assert s == s[..k] + [d] + s[k + 1..];
      Some((s[..k], s[k + 1..]))
  }

  /** `String.join(d, items)`. */
  function Join(d: char, items: seq<string>): (r: string)
    ensures d !in r <==> |items| <= 1 && NoneContains(items, d)
  {
    if items == [] then ""
    else if |items| == 1 then items[0]
    else items[0] + [d] + Join(d, items[1..])
  }

  /** No item contains the delimiter. */
  predicate NoneContains(items: seq<string>, d: char) {
    forall i :: 0 <= i < |items| ==> d !in items[i]
  }

  lemma {:induction false} PiecesOfPlain(a: string, d: char)
    requires d !in a
    ensures Pieces(a, d) == [a]
  {
    if a != [] {
      assert a[0] != d && [a[0]] + a[1..] == a;
      PiecesOfPlain(a[1..], d);
    }
  }

  lemma {:induction false} PiecesAfterFirst(a: string, d: char, b: string)
    requires d !in a
    ensures Pieces(a + [d] + b, d) == [a] + Pieces(b, d)
  {
    if a == [] {
      assert (a + [d] + b)[1..] == b;
    } else {
      assert (a + [d] + b)[1..] == a[1..] + [d] + b;
      assert a[0] != d && [a[0]] + a[1..] == a;
      PiecesAfterFirst(a[1..], d, b);
    }
  }

  /** Splitting a join of delimiter-free items gives back every item, empty ones included. */
  lemma {:induction false} PiecesOfJoin(d: char, items: seq<string>)
    requires |items| >= 1 && NoneContains(items, d)
    ensures Pieces(Join(d, items), d) == items
  {
    if |items| == 1 {
      PiecesOfPlain(items[0], d);
    } else {
      PiecesAfterFirst(items[0], d, Join(d, items[1..]));
      PiecesOfJoin(d, items[1..]);
    }
  }

  lemma JoinHasDelimiter(d: char, items: seq<string>)
    requires |items| >= 2
    ensures d in Join(d, items)
  {
    assert Join(d, items)[|items[0]|] == d;
  }

  /**
   * `Join(d, items).split(d)` gives `items` back when no item contains `d`, there is
   * at least one item, and the last item is non-empty unless it is the only one.
   */
  lemma SplitJoinRoundTrip(d: char, items: seq<string>)
    requires |items| >= 1 && NoneContains(items, d)
    requires |items| == 1 || items[|items| - 1] != ""
    ensures Split(Join(d, items), d) == items
  {
    if |items| >= 2 {
      JoinHasDelimiter(d, items);
      PiecesOfJoin(d, items);
    }
  }

  /** The empty list joins to `""`, which splits to `[""]`: it does not round-trip. */
  lemma EmptyListDoesNotRoundTrip(d: char)
    ensures Split(Join(d, []), d) == [""]
  {
  }

  /** A trailing empty item is lost: `["a", ""]` joins to `"a,"`, which splits to `["a"]`. */
  lemma TrailingEmptyItemIsLost()
    ensures Split(Join(',', ["a", ""]), ',') == ["a"]
  {
    var s := Join(',', ["a", ""]);
    assert s == "a,";
    assert ',' in s by { assert s[1] == ','; }
    assert s[1..] == ",";
    assert ","[1..] == "";
    assert Pieces(",", ',') == ["", ""];
    assert s[0] == 'a' && Pieces(s[1..], ',') == ["", ""];
    assert [s[0]] + "" == "a";
    assert Pieces(s, ',') == ["a", ""];
  }

  lemma SplitAtFirstOfJoin(a: string, d: char, b: string)
    requires d !in a
    ensures SplitAtFirst(a + [d] + b, d) == Some((a, b))
  {
    var s := a + [d] + b;
    assert s[|a|] == d;
    assert s[..|a|] == a;
  }

  /** A character of the ASCII range, U+0000 to U+007F. */
  predicate IsAscii(c: char) {
    c as int < 128
  }

  predicate AllAscii(s: string) {
    forall i :: 0 <= i < |s| ==> IsAscii(s[i])
  }

  /** The plain ASCII lower-casing: `A`..`Z` to `a`..`z`, every other character unchanged. */
  function LowerAscii(c: char): char {
    if 'A' <= c <= 'Z' then (c as int + 32) as char else c
  }

  function LowerAsciiText(s: string): (r: string)
    ensures |r| == |s| && forall i :: 0 <= i < |s| ==> r[i] == LowerAscii(s[i])
  {
    seq(|s|, i requires 0 <= i < |s| => LowerAscii(s[i]))
  }

  /**
   * One step of `Character`-level case-insensitive comparison as `equalsIgnoreCase`
   * does it: equal, equal after upper-casing, or equal after upper- then lower-casing.
   * Folding is exact for the ASCII letters and for the four non-ASCII characters whose
   * case mappings reach an ASCII letter: dotless i, dotted capital I, long s and the
   * Kelvin sign.
   */
  function Fold(c: char): (r: char)
    ensures !('A' <= r <= 'Z')
    ensures IsAscii(c) ==> r == LowerAscii(c)
    ensures r != c ==> 'a' <= r <= 'z'
  {
    if 'A' <= c <= 'Z' then (c as int + 32) as char
    else if c == '\U{0131}' || c == '\U{0130}' then 'i'
    else if c == '\U{017F}' then 's'
    else if c == '\U{212A}' then 'k'
    else c
  }

  /** Two characters match ignoring case; between ASCII characters this is ASCII lower-casing. */
  function CharEqualsIgnoreCase(a: char, b: char): (r: bool)
    ensures IsAscii(a) && IsAscii(b) ==> (r <==> LowerAscii(a) == LowerAscii(b))
  {
    a == b || Fold(a) == Fold(b)
  }

  /** `a.equalsIgnoreCase(b)`: same length and every position matches ignoring case. */
  function EqualsIgnoreCase(a: string, b: string): (r: bool)
    ensures r ==> |a| == |b|
    ensures a == b ==> r
  {
    |a| == |b| && forall i :: 0 <= i < |a| ==> CharEqualsIgnoreCase(a[i], b[i])
  }

  /** Between ASCII texts, `equalsIgnoreCase` is equality after ASCII lower-casing. */
  lemma AsciiEqualsIgnoreCase(a: string, b: string)
    requires AllAscii(a) && AllAscii(b)
    ensures EqualsIgnoreCase(a, b) <==> LowerAsciiText(a) == LowerAsciiText(b)
  {
    if LowerAsciiText(a) == LowerAsciiText(b) {
      forall i | 0 <= i < |a| ensures CharEqualsIgnoreCase(a[i], b[i]) {
        assert LowerAsciiText(a)[i] == LowerAsciiText(b)[i];
      }
    }
  }
}
