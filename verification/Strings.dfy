/** White space, splitting and joining as the JavaScript runtime does them. */
module Strings {

  /** The characters that JavaScript's `trim` removes. */
  predicate IsSpace(c: char) {
    || '\U{0009}' <= c <= '\U{000D}'
    || c in {' ', '\U{00A0}', '\U{1680}', '\U{2028}', '\U{2029}', '\U{202F}', '\U{205F}', '\U{3000}', '\U{FEFF}'}
    || '\U{2000}' <= c <= '\U{200A}'
  }

  /** White space and line ends of ECMA-262, sections 12.2 and 12.3. */
  lemma SpacesAre(c: char)
    ensures IsSpace(c) <==>
            || c as int in {0x9, 0xA, 0xB, 0xC, 0xD, 0x20, 0xA0, 0xFEFF, 0x2028, 0x2029}
            || c as int in {0x1680, 0x2000, 0x2001, 0x2002, 0x2003, 0x2004, 0x2005, 0x2006, 0x2007, 0x2008,
                            0x2009, 0x200A, 0x202F, 0x205F, 0x3000}
  {
  }

  function TrimStart(s: string): string {
    if s != "" && IsSpace(s[0]) then TrimStart(s[1..]) else s
  }

  function TrimEnd(s: string): string {
    if s != "" && IsSpace(s[|s| - 1]) then TrimEnd(s[..|s| - 1]) else s
  }

  function Trim(s: string): string {
    TrimEnd(TrimStart(s))
  }

  predicate AllSpace(s: string) {
    forall i :: 0 <= i < |s| ==> IsSpace(s[i])
  }

  lemma {:induction false} TrimStartDrops(a: string, b: string)
    requires AllSpace(a)
    ensures TrimStart(a + b) == TrimStart(b)
  {
    if a == "" {
      assert a + b == b;
    } else {
      assert IsSpace(a[0]) && (a + b)[1..] == a[1..] + b;
      TrimStartDrops(a[1..], b);
    }
  }

  lemma {:induction false} TrimEndDrops(a: string, b: string)
    requires AllSpace(b)
    ensures TrimEnd(a + b) == TrimEnd(a)
  {
    if b == "" {
      assert a + b == a;
    } else {
      var init := b[..|b| - 1];
      assert (a + b)[..|a + b| - 1] == a + init;
      TrimEndDrops(a, init);
    }
  }

  lemma {:induction false} TrimStartStops(a: string, b: string)
    requires !AllSpace(a)
    ensures TrimStart(a + b) == TrimStart(a) + b
  {
    if IsSpace(a[0]) {
      assert (a + b)[1..] == a[1..] + b;
      TrimStartStops(a[1..], b);
    }
  }

  lemma {:induction false} TrimEndStops(a: string, b: string)
    requires !AllSpace(b)
    ensures TrimEnd(a + b) == a + TrimEnd(b)
  {
    var init, last := b[..|b| - 1], b[|b| - 1];
    if IsSpace(last) {
      assert (a + b)[..|a + b| - 1] == a + init;
      assert b == init + [last];
      TrimEndStops(a, init);
    }
  }

  /** White space before or after a text does not change what trimming leaves of it. */
  lemma TrimDrops(a: string, b: string)
    requires AllSpace(a) || AllSpace(b)
    ensures Trim(a + b) == if AllSpace(a) then Trim(b) else Trim(a)
  {
    if AllSpace(a) {
      TrimStartDrops(a, b);
    } else {
      TrimStartStops(a, b);
      TrimEndDrops(TrimStart(a), b);
    }
  }

  lemma {:induction false} TrimStops(a: string, b: string)
    requires !AllSpace(a) && !AllSpace(b)
    ensures Trim(a + b) == TrimStart(a) + TrimEnd(b)
  {
    TrimStartStops(a, b);
    TrimEndStops(TrimStart(a), b);
  }

  lemma BlankExactly(s: string)
    ensures Trim(s) == "" <==> AllSpace(s)
  {
    if AllSpace(s) {
      TrimStartDrops(s, "");
      assert s + "" == s;
    } else {
      TrimStartKeeps(s);
      TrimEndKeeps(TrimStart(s));
    }
  }

  lemma {:induction false} TrimStartKeeps(s: string)
    requires !AllSpace(s)
    ensures !AllSpace(TrimStart(s))
  {
    if IsSpace(s[0]) { TrimStartKeeps(s[1..]); }
  }

  lemma {:induction false} TrimEndKeeps(s: string)
    requires !AllSpace(s)
    ensures TrimEnd(s) != ""
  {
    var init, last := s[..|s| - 1], s[|s| - 1];
    if IsSpace(last) {
      assert s == init + [last];
      TrimEndKeeps(init);
    }
  }

  /** Trimming takes characters away only. */
  lemma TrimAddsNone(s: string, c: char)
    requires c !in s
    ensures c !in Trim(s)
  {
    TrimStartAddsNone(s, c);
    TrimEndAddsNone(TrimStart(s), c);
  }

  lemma {:induction false} TrimStartAddsNone(s: string, c: char)
    requires c !in s
    ensures c !in TrimStart(s)
  {
    if s != "" && IsSpace(s[0]) { TrimStartAddsNone(s[1..], c); }
  }

  lemma {:induction false} TrimEndAddsNone(s: string, c: char)
    requires c !in s
    ensures c !in TrimEnd(s)
  {
    if s != "" && IsSpace(s[|s| - 1]) { TrimEndAddsNone(s[..|s| - 1], c); }
  }

  predicate OccursAt(s: string, sep: string, at: nat) {
    at + |sep| <= |s| && s[at..at + |sep|] == sep
  }

  function IndexFrom(s: string, sep: string, from: nat): (at: int)
    requires from <= |s|
    ensures at == -1 || from <= at
    ensures at >= 0 ==> OccursAt(s, sep, at) && forall k: nat :: from <= k < at ==> !OccursAt(s, sep, k)
    ensures at < 0 ==> forall k: nat :: from <= k ==> !OccursAt(s, sep, k)
    decreases |s| - from
  {
    if OccursAt(s, sep, from) then from
    else if from == |s| then -1
    else IndexFrom(s, sep, from + 1)
  }

  /** Where the separator first occurs, or -1. */
  function IndexOf(s: string, sep: string): int {
    IndexFrom(s, sep, 0)
  }

  /** JavaScript's `split` on a fixed separator. */
  function Split(s: string, sep: string): (pieces: seq<string>)
    requires sep != ""
    ensures pieces != []
    decreases |s|
  {
    var at := IndexOf(s, sep);
    if at < 0 then [s] else [s[..at]] + Split(s[at + |sep|..], sep)
  }

  function Join(pieces: seq<string>, sep: string): string {
    if pieces == [] then "" else if |pieces| == 1 then pieces[0] else pieces[0] + sep + Join(pieces[1..], sep)
  }

  /** Splitting loses nothing but the separators, and leaves none behind. */
  lemma {:induction false} JoinUndoesSplit(s: string, sep: string)
    requires sep != ""
    ensures Join(Split(s, sep), sep) == s
    ensures forall i :: 0 <= i < |Split(s, sep)| ==> IndexOf(Split(s, sep)[i], sep) < 0
    decreases |s|
  {
    hide IndexOf;
    var at := IndexOf(s, sep);
    Leftmost(s, sep);
    if at >= 0 {
      var rest := s[at + |sep|..];
      JoinUndoesSplit(rest, sep);
      assert Split(s, sep)[1..] == Split(rest, sep);
      assert s == s[..at] + s[at..at + |sep|] + rest;
    }
  }

  lemma Leftmost(s: string, sep: string)
    requires sep != ""
    ensures var at := IndexOf(s, sep);
            at >= 0 ==> OccursAt(s, sep, at) && IndexOf(s[..at], sep) < 0
  {
    var at := IndexOf(s, sep);
    if at >= 0 {
      forall k: nat ensures !OccursAt(s[..at], sep, k) {
        assert k < at ==> !OccursAt(s, sep, k);
        if k + |sep| <= at { assert s[..at][k..k + |sep|] == s[k..k + |sep|]; }
      }
    }
  }

  lemma IndexStays(a: string, b: string, sep: string)
    requires sep != "" && IndexOf(a, sep) >= 0
    ensures IndexOf(a + b, sep) == IndexOf(a, sep)
  {
    var at, s := IndexOf(a, sep), a + b;
    assert OccursAt(s, sep, at) by { assert s[at..at + |sep|] == a[at..at + |sep|]; }
    forall k: nat | k < at ensures !OccursAt(s, sep, k) {
      assert !OccursAt(a, sep, k) && s[k..k + |sep|] == a[k..k + |sep|];
    }
  }

  /** On a separator of one character, splitting undoes joining: no other pieces free of
      it make the same text. */
  lemma {:induction false} SplitUndoesJoin(pieces: seq<string>, sep: char)
    requires pieces != [] && forall i :: 0 <= i < |pieces| ==> sep !in pieces[i]
    ensures Split(Join(pieces, [sep]), [sep]) == pieces
  {
    var s := Join(pieces, [sep]);
    if |pieces| == 1 {
      assert forall k: nat :: OccursAt(s, [sep], k) ==> s[k] == sep;
    } else {
      SplitUndoesJoin(pieces[1..], sep);
      FirstSeparator(pieces[0], Join(pieces[1..], [sep]), sep);
    }
  }

  lemma FirstSeparator(head: string, rest: string, sep: char)
    requires sep !in head
    ensures var s := head + [sep] + rest;
            IndexOf(s, [sep]) == |head| && s[..|head|] == head && s[|head| + 1..] == rest
  {
    var s := head + [sep] + rest;
    assert OccursAt(s, [sep], |head|);
    forall k: nat | k < |head| ensures !OccursAt(s, [sep], k) {
      assert s[k..k + 1][0] == head[k];
    }
  }
}
