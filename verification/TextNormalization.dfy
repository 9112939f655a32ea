/**
  What one pass over a text amounts to: first white space is normalised, as section 2.11 and section 3.3.3 of
  XML 1.0 say, and then references are replaced, so that what a reference stands for is not normalised.
*/
module TextNormalization {
  import opened Common
  import opened References
  import opened TextDecoding

  /** Section 2.11 of XML 1.0: a carriage return, with the line feed after it if there is one, is a line feed. */
  function LineEnds(x: seq<char>): seq<char> {
    if x == [] then []
    else if x[0] == '\r' then ['\n'] + LineEnds(if Is(x, 1, '\n') then x[2..] else x[1..])
    else [x[0]] + LineEnds(x[1..])
  }

  function ToSpaces(x: seq<char>): seq<char> {
    if x == [] then [] else [if IsSpace(x[0]) then ' ' else x[0]] + ToSpaces(x[1..])
  }

  /** Runs of white space become one space. */
  function Squeeze(x: seq<char>): seq<char> {
    if x == [] then []
    else if IsSpace(x[0]) then [' '] + Squeeze(x[Spaces(x, 0)..])
    else [x[0]] + Squeeze(x[1..])
  }

  function Normalize(x: seq<char>, space: Space): seq<char> {
    match space
    case AsIs => x
    case Lines => LineEnds(x)
    case Convert => ToSpaces(LineEnds(x))
    case Collapse => Squeeze(x)
  }

  /** Replacing the references. */
  function Expand(x: seq<char>): seq<char> {
    if x == [] then []
    else if MatchRef(x, 0).len > 0 then MatchRef(x, 0).text + Expand(x[MatchRef(x, 0).len..])
    else [x[0]] + Expand(x[1..])
  }

  // ----- references survive normalisation -----

  /** The `k` characters from `i` and from `j` on are the same. */
  ghost predicate Agree(t: seq<char>, i: nat, u: seq<char>, j: nat, k: nat) {
    i + k <= |t| && j + k <= |u| && t[i..i + k] == u[j..j + k]
  }

  lemma AgreeAt(t: seq<char>, i: nat, u: seq<char>, j: nat, k: nat, d: nat)
    requires Agree(t, i, u, j, k) && d < k
    ensures t[i + d] == u[j + d]
  {
    assert t[i..i + k][d] == u[j..j + k][d];
  }

  lemma SlicePart(t: seq<char>, i: nat, k: nat, from: nat, n: nat)
    requires i + k <= |t| && from + n <= k
    ensures t[i + from..(i + from) + n] == t[i..i + k][from..from + n]
  {
    var x, y := t[i + from..(i + from) + n], t[i..i + k][from..from + n];
    assert |x| == |y| == n;
    forall d: nat | d < n ensures x[d] == y[d] {
      assert x[d] == t[i + from + d];
      assert y[d] == t[i..i + k][from + d];
    }
  }

  lemma AgreePart(t: seq<char>, i: nat, u: seq<char>, j: nat, k: nat, from: nat, n: nat)
    requires Agree(t, i, u, j, k) && from + n <= k
    ensures Agree(t, i + from, u, j + from, n)
  {
    SlicePart(t, i, k, from, n);
    SlicePart(u, j, k, from, n);
  }

  /** Behind the characters there is none that references are made of. */
  ghost predicate Ends(t: seq<char>, i: nat) {
    i < |t| ==> !RefChar(t[i])
  }

  lemma {:induction false} SameDigits(t: seq<char>, i: nat, u: seq<char>, j: nat, k: nat, hex: bool)
    requires Agree(t, i, u, j, k) && Ends(t, i + k) && Ends(u, j + k)
    ensures Digits(t, i, hex) == Digits(u, j, hex) <= k
    decreases k
  {
    hide Agree;
    if k > 0 {
      AgreeAt(t, i, u, j, k, 0);
      AgreePart(t, i, u, j, k, 1, k - 1);
      AgreeBounds(t, i, u, j, k);
      SameDigits(t, i + 1, u, j + 1, k - 1, hex);
    }
  }

  lemma AgreeBounds(t: seq<char>, i: nat, u: seq<char>, j: nat, k: nat)
    requires Agree(t, i, u, j, k)
    ensures i + k <= |t| && j + k <= |u|
  {
  }

  lemma {:induction false} SameValue(t: seq<char>, i: nat, u: seq<char>, j: nat, n: nat, base: nat)
    requires Agree(t, i, u, j, n)
    requires (forall k: nat | i <= k < i + n :: IsHex(t[k])) && (forall k: nat | j <= k < j + n :: IsHex(u[k]))
    ensures Value(t, i, n, base) == Value(u, j, n, base)
    decreases n
  {
    if n > 0 {
      AgreeAt(t, i, u, j, n, n - 1);
      AgreePart(t, i, u, j, n, 0, n - 1);
      SameValue(t, i, u, j, n - 1, base);
    }
  }

  lemma SameIs(t: seq<char>, i: nat, u: seq<char>, j: nat, k: nat, d: nat, c: char)
    requires Agree(t, i, u, j, k) && Ends(t, i + k) && Ends(u, j + k) && d <= k && RefChar(c)
    ensures Is(t, i + d, c) <==> Is(u, j + d, c)
  {
    if d < k { AgreeAt(t, i, u, j, k, d); }
  }

  lemma SameNumber(t: seq<char>, i: nat, u: seq<char>, j: nat, k: nat, skip: nat, base: nat)
    requires 2 <= skip <= k && Agree(t, i, u, j, k) && Ends(t, i + k) && Ends(u, j + k)
    ensures MatchNumber(t, i, skip, base) == MatchNumber(u, j, skip, base)
  {
    hide Agree, Ends, Is, Value, Digits;
    AgreePart(t, i, u, j, k, skip, k - skip);
    SameDigits(t, i + skip, u, j + skip, k - skip, base == 16);
    var n := Digits(t, i + skip, base == 16);
    AgreeBounds(t, i, u, j, k);
    AgreePart(t, i, u, j, k, skip, n);
    SameValue(t, i + skip, u, j + skip, n, base);
    SameIs(t, i, u, j, k, skip + n, ';');
  }

  /** Whether there is a reference depends only on the characters that references are made of. */
  lemma SameMatch(t: seq<char>, i: nat, u: seq<char>, j: nat, k: nat)
    requires Agree(t, i, u, j, k) && Ends(t, i + k) && Ends(u, j + k)
    ensures MatchRef(t, i) == MatchRef(u, j)
  {
    hide Agree, Ends, MatchNumber;
    AgreeBounds(t, i, u, j, k);
    SameIs(t, i, u, j, k, 0, '&');
    if k >= 1 {
      SameIs(t, i, u, j, k, 1, 'a');
      SameIs(t, i, u, j, k, 1, 'g');
      SameIs(t, i, u, j, k, 1, 'l');
      SameIs(t, i, u, j, k, 1, 'q');
      SameIs(t, i, u, j, k, 1, '#');
    }
    if k >= 2 {
      SameIs(t, i, u, j, k, 2, 'm');
      SameIs(t, i, u, j, k, 2, 'p');
      SameIs(t, i, u, j, k, 2, 't');
      SameIs(t, i, u, j, k, 2, 'u');
      SameIs(t, i, u, j, k, 2, 'x');
      SameNumber(t, i, u, j, k, 2, 10);
    }
    if k >= 3 {
      SameIs(t, i, u, j, k, 3, 'p');
      SameIs(t, i, u, j, k, 3, 'o');
      SameIs(t, i, u, j, k, 3, ';');
      SameNumber(t, i, u, j, k, 3, 16);
    }
    if k >= 4 {
      SameIs(t, i, u, j, k, 4, ';');
      SameIs(t, i, u, j, k, 4, 's');
      SameIs(t, i, u, j, k, 4, 't');
    }
    if k >= 5 { SameIs(t, i, u, j, k, 5, ';'); }
    hide Is;
    if k == 0 {
      NotFurther(t, i);
      NotFurther(u, j);
    } else if k == 1 {
      NotFurther(t, i + 1);
      NotFurther(u, j + 1);
    } else if k == 2 {
      NotFurther(t, i + 2);
      NotFurther(u, j + 2);
    } else if k == 3 {
      NotFurther(t, i + 3);
      NotFurther(u, j + 3);
    } else if k == 4 {
      NotFurther(t, i + 4);
      NotFurther(u, j + 4);
    }
  }

  /** A reference does not go beyond them. */
  lemma NotFurther(t: seq<char>, p: nat)
    requires Ends(t, p)
    ensures !Is(t, p, 'a') && !Is(t, p, 'g') && !Is(t, p, 'l') && !Is(t, p, 'q') && !Is(t, p, '#') && !Is(t, p, 'm')
    ensures !Is(t, p, 'p') && !Is(t, p, 't') && !Is(t, p, 'u') && !Is(t, p, 'x') && !Is(t, p, 'o') && !Is(t, p, 's')
    ensures !Is(t, p, ';') && !Is(t, p, '&')
  {
  }

  // ----- normalisation, item by item -----

  /** Characters of references stay as they are. */
  lemma {:induction false} NormalizeKeeps(x: seq<char>, n: nat, space: Space)
    requires n <= |x| && forall d: nat | d < n :: RefChar(x[d])
    ensures Normalize(x, space) == x[..n] + Normalize(x[n..], space)
    decreases n
  {
    hide Normalize;
    if n == 0 {
      assert x[0..] == x;
    } else {
      assert RefChar(x[0]);
      NormalizeOne(x, space);
      NormalizeKeeps(x[1..], n - 1, space);
      assert x[1..][n - 1..] == x[n..] && x[..n] == [x[0]] + x[1..][..n - 1];
    }
  }

  lemma NormalizeOne(x: seq<char>, space: Space)
    requires x != [] && !IsSpace(x[0])
    ensures Normalize(x, space) == [x[0]] + Normalize(x[1..], space)
  {
    assert x == [x[0]] + x[1..];
    assert ([x[0]] + LineEnds(x[1..]))[1..] == LineEnds(x[1..]);
  }

  /** What normalisation makes of a character that is in no reference is in none. */
  lemma NormalizeEnds(x: seq<char>, space: Space)
    requires x == [] || !RefChar(x[0])
    ensures var c := Normalize(x, space); c == [] || !RefChar(c[0])
  {
  }

  /** White space is normalised as the items say. */
  lemma NormalizeSpace(x: seq<char>, mode: Mode)
    requires x != [] && IsSpace(x[0])
    ensures var m := Item(x, 0, mode); m.len <= |x| && |m.text| == 1 && IsSpace(m.text[0])
    ensures var m := Item(x, 0, mode); Normalize(x, mode.space) == m.text + Normalize(x[m.len..], mode.space)
  {
    NoReference(x, 0);
    var m := Item(x, 0, mode);
    assert x == [x[0]] + x[1..];
    if mode.space == Convert {
      var rest := LineEnds(x[m.len..]);
      assert LineEnds(x) == [if x[0] == '\r' then '\n' else x[0]] + rest;
      assert LineEnds(x)[1..] == rest;
    }
  }

  /** The number of characters, from the beginning, that references are made of. */
  function RefRun(x: seq<char>): (n: nat)
    ensures n <= |x| && (forall d: nat | d < n :: RefChar(x[d])) && Ends(x, n)
  {
    if x == [] || !RefChar(x[0]) then 0 else 1 + RefRun(x[1..])
  }

  /** References are where they were. */
  lemma NormalizeMatch(x: seq<char>, space: Space)
    ensures MatchRef(Normalize(x, space), 0) == MatchRef(x, 0)
  {
    hide MatchRef, RefChar, Normalize;
    var n := RefRun(x);
    NormalizeKeeps(x, n, space);
    NormalizeEnds(x[n..], space);
    var c := Normalize(x, space);
    assert n < |x| ==> x[n..][0] == x[n];
    assert n < |c| ==> c[n] == Normalize(x[n..], space)[0];
    assert x[0..0 + n] == x[..n] && c[0..0 + n] == x[..n];
    SameMatch(c, 0, x, 0, n);
  }

  /** The same reference, seen in the text that ends before the delimiter. */
  lemma CutMatch(t: seq<char>, i: nat, e: nat, stop: char)
    requires i <= e < |t| && Stops(t[e], stop) && Delimiter(stop)
    ensures MatchRef(t[i..e], 0) == MatchRef(t, i)
  {
    hide MatchRef, RefChar;
    var x := t[i..e];
    var n := RefRun(x);
    assert x[0..0 + n] == t[i..i + n];
    assert i + n < e ==> x[n] == t[i + n];
    StopIsNoRef(t[e], stop);
    SameMatch(t[i..e], 0, t, i, n);
  }

  lemma StopIsNoRef(c: char, stop: char)
    requires Stops(c, stop) && Delimiter(stop)
    ensures !RefChar(c)
  {
  }

  ghost function Finish(x: seq<char>, mode: Mode): seq<char> {
    if mode.escape then Expand(Normalize(x, mode.space)) else Normalize(x, mode.space)
  }

  lemma ExpandOne(c: char, rest: seq<char>)
    requires MatchRef([c] + rest, 0).len == 0
    ensures Expand([c] + rest) == [c] + Expand(rest)
  {
    assert ([c] + rest)[1..] == rest;
  }

  lemma ExpandRef(r: seq<char>, rest: seq<char>, m: Match)
    requires MatchRef(r + rest, 0) == m && m.len == |r| > 0
    ensures Expand(r + rest) == m.text + Expand(rest)
  {
    assert (r + rest)[|r|..] == rest;
  }

  /** One item of the text, normalised and expanded. */
  lemma FinishItem(x: seq<char>, mode: Mode)
    requires x != []
    ensures var m := Item(x, 0, mode); Finish(x, mode) == m.text + Finish(x[m.len..], mode)
  {
    hide MatchRef, RefChar, Normalize, Expand;
    var m := Item(x, 0, mode);
    var c, rest := Normalize(x, mode.space), Normalize(x[m.len..], mode.space);
    NormalizeMatch(x, mode.space);
    if IsSpace(x[0]) {
      NormalizeSpace(x, mode);
      NoReference(m.text + rest, 0);
      ExpandOne(m.text[0], rest);
      assert m.text == [m.text[0]];
    } else if mode.escape && MatchRef(x, 0).len > 0 {
      MatchChars(x, 0);
      NormalizeKeeps(x, m.len, mode.space);
      ExpandRef(x[..m.len], rest, m);
    } else {
      NormalizeOne(x, mode.space);
      if mode.escape { ExpandOne(x[0], rest); }
    }
  }

  /** The item at a place of the buffer is the first one of the text that is left. */
  lemma SameItem(t: seq<char>, i: nat, e: nat, mode: Mode, stop: char)
    requires i < e < |t| && Stops(t[e], stop) && Delimiter(stop)
    ensures Item(t[i..e], 0, mode) == Item(t, i, mode)
  {
    hide MatchRef;
    CutMatch(t, i, e, stop);
    SameSpaces(t, i, e);
    assert i + 1 < e ==> t[i..e][1] == t[i + 1];
  }

  lemma {:induction false} SameSpaces(t: seq<char>, i: nat, e: nat)
    requires i <= e < |t| && !IsSpace(t[e])
    ensures Spaces(t[i..e], 0) == Spaces(t, i)
    decreases e - i
  {
    if i < e && IsSpace(t[i]) {
      SameSpaces(t, i + 1, e);
      assert t[i..e][1..] == t[i + 1..e];
      ShiftSpaces(t[i..e], 1);
    }
  }

  lemma {:induction false} ShiftSpaces(x: seq<char>, i: nat)
    requires i <= |x|
    ensures Spaces(x, i) == Spaces(x[i..], 0)
    decreases |x| - i
  {
    if i < |x| && IsSpace(x[i]) {
      ShiftSpaces(x, i + 1);
      ShiftSpaces(x[i..], 1);
      assert x[i..][1..] == x[i + 1..];
    }
  }

  /** Decoding in one pass is normalising the white space first and replacing the references then. */
  lemma {:induction false} DecodeIsTwoPasses(t: seq<char>, i: nat, mode: Mode, stop: char)
    requires i < |t| && Terminated(t) && Delimiter(stop)
    ensures Decode(t, i, mode, stop) == Finish(t[i..EndOf(t, i, stop)], mode)
    decreases |t| - i
  {
    hide MatchRef, Item, Finish;
    EndBeforeNul(t, i, stop);
    var e := EndOf(t, i, stop);
    if i == e {
      assert t[i..e] == [];
      NothingToFinish(mode);
    } else {
      var m := Item(t, i, mode);
      ItemStays(t, i, mode, stop);
      DecodeIsTwoPasses(t, i + m.len, mode, stop);
      SameItem(t, i, e, mode, stop);
      FinishItem(t[i..e], mode);
      assert t[i..e][m.len..] == t[i + m.len..e];
    }
  }

  lemma NothingToFinish(mode: Mode)
    ensures Finish([], mode) == []
  {
  }
}
