/**
  How far a document has been read: what is left of it, if it is written as MarkupSpelling says, and what has been
  read so far, whatever it is.  `s` is the document as it was, with NUL in place of its last character, `endch`.
 */
module MarkupReading {
  import opened Common
  import opened References
  import opened TextDecoding
  import opened Markup
  import opened MarkupSpelling

  /** An element that is still open; the first one stands for the document. */
  datatype Frame = Frame(name: seq<char>, attributes: seq<Attribute>, kids: seq<Tree>)

  /** What is still to come of it: other children and the end tag. */
  datatype Todo = Todo(items: seq<Spelled>, endName: seq<char>, endGap: seq<char>)

  // ----- how far the document has been read -----

  /** The first NUL; the parser takes the document to end there. */
  ghost function Nul(s: seq<char>): (z: nat)
    requires Terminated(s)
    ensures z < |s| && s[z] == '\0' && forall k: nat | k < z :: s[k] != '\0'
  {
    NulFrom(s, 0)
  }

  ghost function NulFrom(s: seq<char>, i: nat): (z: nat)
    requires Terminated(s) && i < |s| && forall k: nat | k < i :: s[k] != '\0'
    ensures z < |s| && s[z] == '\0' && forall k: nat | k < z :: s[k] != '\0'
    decreases |s| - i
  {
    if s[i] == '\0' then i else NulFrom(s, i + 1)
  }

  /** The last character is read in place of NUL. */
  function Last(endch: char): seq<char> {
    if endch == '\0' then [] else [endch]
  }

  /** From place `i` to place `j` the document reads `x`. */
  ghost predicate Reads(s: seq<char>, endch: char, i: nat, j: nat, x: seq<char>) {
    && Terminated(s) && i <= j <= Nul(s)
    && (x == s[i..j] || (j == Nul(s) && x == s[i..j] + Last(endch)))
  }

  /** `x` is what is left from place `i` on. */
  ghost predicate Left(s: seq<char>, endch: char, i: nat, x: seq<char>) {
    && Terminated(s) && i <= Nul(s)
    && (x == s[i..Nul(s)] + Last(endch) || (i == Nul(s) && x == []))
  }

  lemma LeftAt(s: seq<char>, endch: char, i: nat, x: seq<char>, k: nat)
    requires Left(s, endch, i, x) && k < |x|
    ensures i + k < |s| && (s[i + k] == x[k] || (k == |x| - 1 && s[i + k] == '\0' && endch == x[k]))
  {
  }

  lemma LeftParts(s: seq<char>, endch: char, i: nat, x: seq<char>, y: seq<char>)
    requires Left(s, endch, i, x + y) && y != []
    ensures Stands(s, i, x) && Left(s, endch, i + |x|, y)
  {
    var z, w := Nul(s), s[i..Nul(s)] + Last(endch);
    assert w[..|x|] == x && w[|x|..] == y;
    assert s[i..i + |x|] == w[..|x|];
    assert s[i + |x|..z] + Last(endch) == w[|x|..];
  }

  /** One character is read, or NUL in its place. */
  lemma LeftOne(s: seq<char>, endch: char, i: nat, c: char, y: seq<char>)
    requires Left(s, endch, i, [c] + y)
    ensures i < |s|
    ensures (s[i] == c && Left(s, endch, i + 1, y)) || (y == [] && s[i] == '\0' && endch == c && Left(s, endch, i, y))
  {
    var z := Nul(s);
    var w := s[i..z] + Last(endch);
    assert w[0] == c && w[1..] == y;
    if i < z { assert s[i + 1..z] + Last(endch) == w[1..]; }
  }

  /** What is left of the open elements. */
  ghost function RestOf(todos: seq<Todo>): seq<char>
    requires todos != []
  {
    var n := |todos| - 1;
    if n == 0 then WriteAll(todos[0].items)
    else WriteAll(todos[n].items) + (WriteEnd(todos[n].endName, todos[n].endGap) + RestOf(todos[..n]))
  }

  /** The frames with more children in the innermost one. */
  function AddKids(frames: seq<Frame>, l: seq<Tree>): seq<Frame>
    requires frames != []
  {
    var n := |frames| - 1;
    frames[n := frames[n].(kids := frames[n].kids + l)]
  }

  /** The innermost element is complete. */
  function Pop(frames: seq<Frame>): seq<Frame>
    requires |frames| > 1
  {
    var n := |frames| - 1;
    AddKids(frames[..n], [Element(frames[n].name, frames[n].attributes, frames[n].kids)])
  }

  /** The document that comes about once everything left has been read. */
  ghost function Plug(frames: seq<Frame>, todos: seq<Todo>): seq<Tree>
    requires |frames| == |todos| > 0
    decreases |frames|
  {
    var n := |frames| - 1;
    if n == 0 then frames[0].kids + Outline(todos[0].items)
    else
      var e := Element(frames[n].name, frames[n].attributes, frames[n].kids + MeaningAll(todos[n].items));
      Plug(AddKids(frames[..n], [e]), todos[..n])
  }

  /** The end tags still to come are those of their elements. */
  ghost predicate Fits(frames: seq<Frame>, todos: seq<Todo>, k: nat)
    requires |frames| == |todos| && k < |todos|
  {
    MatchedAll(todos[k].items) && (k > 0 ==> todos[k].endName == frames[k].name)
  }

  ghost predicate Matching(frames: seq<Frame>, todos: seq<Todo>)
    requires |frames| == |todos|
  {
    forall k: nat | k < |todos| :: Fits(frames, todos, k)
  }

  ghost predicate Sound(f: Frame, t: Todo, first: bool) {
    GoodAll(t.items) && (first || (ValidName(f.name) && IsWord(t.endName) && IsBlank(t.endGap)))
  }

  ghost predicate Proper(frames: seq<Frame>, todos: seq<Todo>) {
    |frames| == |todos| > 0 && forall k: nat | k < |todos| :: Sound(frames[k], todos[k], k == 0)
  }

  /** Reading the document `g` has come to place `i`. */
  ghost predicate Reading(s: seq<char>, endch: char, i: nat, frames: seq<Frame>, todos: seq<Todo>, g: seq<Spelled>) {
    && Proper(frames, todos) && Left(s, endch, i, RestOf(todos)) && Plug(frames, todos) == Outline(g)
    && (Matching(frames, todos) <==> MatchedAll(g))
  }

  lemma ReadingParts(s: seq<char>, endch: char, i: nat, frames: seq<Frame>, todos: seq<Todo>, g: seq<Spelled>)
    requires Reading(s, endch, i, frames, todos, g)
    ensures |frames| == |todos| > 0 && Proper(frames, todos) && Left(s, endch, i, RestOf(todos))
    ensures Plug(frames, todos) == Outline(g) && (Matching(frames, todos) <==> MatchedAll(g))
  {
  }

  lemma SoundAt(frames: seq<Frame>, todos: seq<Todo>, k: nat)
    requires Proper(frames, todos) && k < |todos|
    ensures |frames| == |todos| && Sound(frames[k], todos[k], k == 0)
  {
  }

  /** What comes next in the innermost element. */
  ghost predicate Comes(todos: seq<Todo>) {
    todos != [] && todos[|todos| - 1].items != []
  }

  ghost function Head(todos: seq<Todo>): Spelled
    requires Comes(todos)
  {
    todos[|todos| - 1].items[0]
  }

  /** The next item of the innermost element has been read. */
  ghost function Next(todos: seq<Todo>): seq<Todo>
    requires Comes(todos)
  {
    var n := |todos| - 1;
    todos[n := todos[n].(items := todos[n].items[1..])]
  }

  lemma NextRest(todos: seq<Todo>)
    requires Comes(todos)
    ensures |Next(todos)| == |todos| && RestOf(todos) == Write(Head(todos)) + RestOf(Next(todos))
  {
    hide Write, WriteEnd;
    var n := |todos| - 1;
    var l, w := todos[n].items, Write(Head(todos));
    if n > 0 {
      assert Next(todos)[..n] == todos[..n];
      var r := WriteEnd(todos[n].endName, todos[n].endGap) + RestOf(todos[..n]);
      assert (w + WriteAll(l[1..])) + r == w + (WriteAll(l[1..]) + r);
    }
  }

  lemma NextPlug(frames: seq<Frame>, todos: seq<Todo>)
    requires |frames| == |todos| && Comes(todos)
    ensures var frames' := AddKids(frames, Gives(Head(todos), |todos| > 1));
            |frames'| == |todos| == |Next(todos)| && Plug(frames', Next(todos)) == Plug(frames, todos)
  {
    hide Meaning;
    var n := |todos| - 1;
    var l, m := todos[n].items, Gives(Head(todos), n > 0);
    if n == 0 {
      assert (frames[0].kids + m) + Outline(l[1..]) == frames[0].kids + (m + Outline(l[1..]));
    } else {
      assert AddKids(frames, m)[..n] == frames[..n] && Next(todos)[..n] == todos[..n];
      assert (frames[n].kids + m) + MeaningAll(l[1..]) == frames[n].kids + (m + MeaningAll(l[1..]));
    }
  }

  lemma NextProper(frames: seq<Frame>, todos: seq<Todo>, m: seq<Tree>)
    requires Proper(frames, todos) && Comes(todos)
    ensures Proper(AddKids(frames, m), Next(todos)) && Good(Head(todos)) && |frames| == |todos|
  {
    hide ValidName, Good, IsWord, IsBlank;
    SoundAt(frames, todos, |todos| - 1);
  }

  lemma NextFits(frames: seq<Frame>, todos: seq<Todo>, m: seq<Tree>)
    requires |frames| == |todos| && Comes(todos)
    ensures |AddKids(frames, m)| == |Next(todos)|
    ensures Matching(frames, todos) <==> Matched(Head(todos)) && Matching(AddKids(frames, m), Next(todos))
  {
    hide Matched;
    var frames', todos', n := AddKids(frames, m), Next(todos), |todos| - 1;
    assert MatchedAll(todos[n].items) <==> Matched(Head(todos)) && MatchedAll(todos'[n].items);
    forall k: nat | k < |todos| ensures Fits(frames, todos, k) <==> (k == n ==> Matched(Head(todos))) && Fits(frames', todos', k) {
    }
    if Matching(frames, todos) { assert Fits(frames, todos, n); }
  }

  /** An item that is not an element with an end tag has been read. */
  lemma ReadItem(s: seq<char>, endch: char, i: nat, frames: seq<Frame>, todos: seq<Todo>, g: seq<Spelled>, e: nat)
    requires Reading(s, endch, i, frames, todos, g) && Comes(todos) && Matched(Head(todos)) && Left(s, endch, e, RestOf(Next(todos)))
    ensures |frames| == |todos| && Good(Head(todos))
    ensures Reading(s, endch, e, AddKids(frames, Gives(Head(todos), |todos| > 1)), Next(todos), g)
  {
    hide Left, RestOf, Plug, Proper, Matching, Good, Matched, Gives, AddKids, Next, Head;
    ReadingParts(s, endch, i, frames, todos, g);
    var m := Gives(Head(todos), |todos| > 1);
    NextPlug(frames, todos);
    NextProper(frames, todos, m);
    NextFits(frames, todos, m);
  }

  /** The start tag of an element with an end tag has been read. */
  lemma OpenItem(s: seq<char>, endch: char, i: nat, frames: seq<Frame>, todos: seq<Todo>, g: seq<Spelled>, e: nat)
    requires Reading(s, endch, i, frames, todos, g) && Comes(todos) && Head(todos).SpelledElement? && !Head(todos).closed
    requires Left(s, endch, e, RestOf(Still(todos)))
    ensures var t := Head(todos); Reading(s, endch, e, frames + [Frame(t.name, AttributesOf(t.attributes), [])], Still(todos), g)
  {
    hide Left, RestOf, Plug, Proper, Matching, Good, Matched, AddKids, Next, Head, MeaningAll, AttributesOf, GoodAll;
    ReadingParts(s, endch, i, frames, todos, g);
    var t := Head(todos);
    NextPlug(frames, todos);
    NextProper(frames, todos, []);
    NextFits(frames, todos, []);
    OpenPlug(frames, todos);
    OpenProper(frames, todos);
    OpenFits(frames, todos);
  }

  /** What is still to come behind the start tag that is next. */
  ghost function Still(todos: seq<Todo>): seq<Todo>
    requires Comes(todos) && Head(todos).SpelledElement?
  {
    var t := Head(todos);
    if t.closed then Next(todos) else Next(todos) + [Todo(t.kids, t.endName, t.endGap)]
  }

  lemma OpenPlug(frames: seq<Frame>, todos: seq<Todo>)
    requires |frames| == |todos| && Comes(todos) && Head(todos).SpelledElement? && !Head(todos).closed
    ensures var t := Head(todos); var frames' := frames + [Frame(t.name, AttributesOf(t.attributes), [])];
            |frames'| == |Still(todos)| && Plug(frames', Still(todos)) == Plug(AddKids(frames, Meaning(t)), Next(todos))
  {
    hide AttributesOf, MeaningAll, Outline;
    var t := Head(todos);
    var frames' := frames + [Frame(t.name, AttributesOf(t.attributes), [])];
    assert frames'[..|frames|] == frames && Still(todos)[..|todos|] == Next(todos) && [] + MeaningAll(t.kids) == MeaningAll(t.kids);
  }

  lemma OpenProper(frames: seq<Frame>, todos: seq<Todo>)
    requires Proper(frames, todos) && Comes(todos) && Head(todos).SpelledElement? && !Head(todos).closed && Good(Head(todos))
    requires Proper(AddKids(frames, []), Next(todos))
    ensures var t := Head(todos); Proper(frames + [Frame(t.name, AttributesOf(t.attributes), [])], Still(todos))
  {
    hide AttributesOf, GoodAll, GoodAttributes, IsWord, IsBlank, ValidName;
    var t := Head(todos);
    var frames', todos' := frames + [Frame(t.name, AttributesOf(t.attributes), [])], Still(todos);
    forall k: nat | k < |todos'| ensures Sound(frames'[k], todos'[k], k == 0) {
      if k < |todos| { SoundAt(AddKids(frames, []), Next(todos), k); }
    }
  }

  lemma OpenFits(frames: seq<Frame>, todos: seq<Todo>)
    requires |frames| == |todos| && Comes(todos) && Head(todos).SpelledElement? && !Head(todos).closed
    ensures var t := Head(todos); var frames' := frames + [Frame(t.name, AttributesOf(t.attributes), [])];
            && |frames'| == |Still(todos)|
            && (Matching(frames', Still(todos)) <==> Matched(t) && Matching(AddKids(frames, []), Next(todos)))
  {
    hide AttributesOf, MatchedAll;
    var t := Head(todos);
    var frames', todos' := frames + [Frame(t.name, AttributesOf(t.attributes), [])], Still(todos);
    assert Fits(frames', todos', |todos|) <==> Matched(t);
    forall k: nat | k < |todos| ensures Fits(frames', todos', k) <==> Fits(AddKids(frames, []), Next(todos), k) {
    }
    if Matched(t) && Matching(AddKids(frames, []), Next(todos)) {
      forall k: nat | k < |todos'| ensures Fits(frames', todos', k) {
        if k < |todos| { assert Fits(AddKids(frames, []), Next(todos), k); }
      }
    }
    if Matching(frames', todos') {
      forall k: nat | k < |todos| ensures Fits(AddKids(frames, []), Next(todos), k) { assert Fits(frames', todos', k); }
    }
  }

  /** The innermost element has nothing more but its end tag. */
  ghost predicate EndNext(todos: seq<Todo>) {
    |todos| > 1 && todos[|todos| - 1].items == []
  }

  lemma EndRest(todos: seq<Todo>)
    requires EndNext(todos)
    ensures var n := |todos| - 1; RestOf(todos) == WriteEnd(todos[n].endName, todos[n].endGap) + RestOf(todos[..n])
  {
    hide WriteEnd;
    var n := |todos| - 1;
    var r := WriteEnd(todos[n].endName, todos[n].endGap) + RestOf(todos[..n]);
    assert [] + r == r;
  }

  /** The end tag of the innermost element has been read. */
  lemma CloseItem(s: seq<char>, endch: char, i: nat, frames: seq<Frame>, todos: seq<Todo>, g: seq<Spelled>, e: nat)
    requires Reading(s, endch, i, frames, todos, g) && EndNext(todos) && Left(s, endch, e, RestOf(todos[..|todos| - 1]))
    ensures var n := |todos| - 1;
            && |frames| == |todos| && (todos[n].endName != frames[n].name ==> !MatchedAll(g))
            && (todos[n].endName == frames[n].name ==> Reading(s, endch, e, Pop(frames), todos[..n], g))
  {
    hide Left, RestOf, Plug, Proper, Matching, Pop, Outline;
    ReadingParts(s, endch, i, frames, todos, g);
    ClosePlug(frames, todos);
    CloseProper(frames, todos);
    CloseFits(frames, todos);
  }

  lemma ClosePlug(frames: seq<Frame>, todos: seq<Todo>)
    requires |frames| == |todos| && EndNext(todos)
    ensures |Pop(frames)| == |todos| - 1 && Plug(Pop(frames), todos[..|todos| - 1]) == Plug(frames, todos)
  {
    assert frames[|todos| - 1].kids + [] == frames[|todos| - 1].kids;
  }

  lemma CloseProper(frames: seq<Frame>, todos: seq<Todo>)
    requires Proper(frames, todos) && |frames| > 1
    ensures |frames| == |todos| && Proper(Pop(frames), todos[..|todos| - 1])
  {
    hide GoodAll, ValidName, IsWord, IsBlank;
    var frames', todos' := Pop(frames), todos[..|todos| - 1];
    forall k: nat | k < |todos'| ensures Sound(frames'[k], todos'[k], k == 0) { SoundAt(frames, todos, k); }
  }

  lemma CloseFits(frames: seq<Frame>, todos: seq<Todo>)
    requires |frames| == |todos| && EndNext(todos)
    ensures var n := |todos| - 1;
            && |Pop(frames)| == n
            && (Matching(frames, todos) <==> todos[n].endName == frames[n].name && Matching(Pop(frames), todos[..n]))
  {
    var n := |todos| - 1;
    var frames', todos' := Pop(frames), todos[..n];
    assert Fits(frames, todos, n) <==> todos[n].endName == frames[n].name;
    forall k: nat | k < n ensures Fits(frames', todos', k) <==> Fits(frames, todos, k) {
    }
    if todos[n].endName == frames[n].name && Matching(frames', todos') {
      forall k: nat | k < |todos| ensures Fits(frames, todos, k) {
        if k < n { assert Fits(frames', todos', k); }
      }
    }
    if Matching(frames, todos) {
      forall k: nat | k < n ensures Fits(frames', todos', k) { assert Fits(frames, todos, k); }
    }
  }

  // ----- what has been read of a document -----

  /** An element that is still open, as it is spelled so far; the first one stands for the document. */
  datatype Built = Built(name: seq<char>, attributes: seq<SpelledAttribute>, gap: seq<char>, items: seq<Spelled>)

  ghost function Written(bs: seq<Built>): seq<char>
    requires bs != []
  {
    var n := |bs| - 1;
    if n == 0 then WriteAll(bs[0].items)
    else Written(bs[..n]) + (WriteStart(bs[n].name, bs[n].attributes, bs[n].gap, false) + WriteAll(bs[n].items))
  }

  ghost predicate BuiltOk(b: Built, first: bool) {
    && GoodAll(b.items) && MatchedAll(b.items)
    && (first || (ValidName(b.name) && GoodAttributes(b.attributes) && IsBlank(b.gap)))
  }

  ghost predicate AllOk(bs: seq<Built>) {
    bs != [] && forall k: nat | k < |bs| :: BuiltOk(bs[k], k == 0)
  }

  /** Up to place `i` the document is what has been built. */
  ghost predicate Trace(s: seq<char>, endch: char, i: nat, bs: seq<Built>) {
    AllOk(bs) && Reads(s, endch, 0, i, Written(bs))
  }

  /** Behind a text or white space only a tag may come. */
  ghost predicate Fresh(bs: seq<Built>) {
    bs != [] && var l := bs[|bs| - 1].items; l == [] || l[|l| - 1].SpelledElement?
  }

  function AddItem(bs: seq<Built>, t: Spelled): seq<Built>
    requires bs != []
  {
    var n := |bs| - 1;
    bs[n := bs[n].(items := bs[n].items + [t])]
  }

  function PopBuilt(bs: seq<Built>, gap: seq<char>): seq<Built>
    requires |bs| > 1
  {
    AddItem(bs[..|bs| - 1], Complete(bs[|bs| - 1], gap))
  }

  lemma {:induction false} OneMoreWritten(l: seq<Spelled>, t: Spelled)
    ensures WriteAll(l + [t]) == WriteAll(l) + Write(t)
  {
    hide Write;
    if l == [] {
      assert l + [t] == [t] && [t][1..] == [];
    } else {
      assert (l + [t])[1..] == l[1..] + [t];
      OneMoreWritten(l[1..], t);
    }
  }

  lemma {:induction false} OneMoreMatched(l: seq<Spelled>, t: Spelled)
    ensures MatchedAll(l + [t]) <==> MatchedAll(l) && Matched(t)
  {
    hide Matched;
    if l == [] {
      assert l + [t] == [t] && [t][1..] == [];
    } else {
      assert (l + [t])[1..] == l[1..] + [t];
      OneMoreMatched(l[1..], t);
    }
  }

  lemma {:induction false} OneMoreMeant(l: seq<Spelled>, t: Spelled)
    ensures MeaningAll(l + [t]) == MeaningAll(l) + Meaning(t)
  {
    hide Meaning;
    if l == [] {
      assert l + [t] == [t] && [t][1..] == [];
    } else {
      assert (l + [t])[1..] == l[1..] + [t];
      OneMoreMeant(l[1..], t);
    }
  }

  lemma {:induction false} OneMoreShown(l: seq<Spelled>, t: Spelled)
    ensures Outline(l + [t]) == Outline(l) + Gives(t, false)
  {
    hide Gives;
    if l == [] {
      assert l + [t] == [t] && [t][1..] == [];
    } else {
      assert (l + [t])[1..] == l[1..] + [t];
      OneMoreShown(l[1..], t);
    }
  }

  lemma {:induction false} OneMoreGood(l: seq<Spelled>, t: Spelled)
    requires GoodAll(l) && Good(t) && (l == [] || l[|l| - 1].SpelledElement? || t.SpelledElement?)
    ensures GoodAll(l + [t])
  {
    hide Good;
    if l == [] {
      assert l + [t] == [t] && [t][1..] == [];
    } else {
      assert (l + [t])[1..] == l[1..] + [t];
      OneMoreGood(l[1..], t);
    }
  }

  lemma ReadsAfter(s: seq<char>, endch: char, i: nat, j: nat, k: nat, y: seq<char>)
    requires i <= j && Reads(s, endch, j, k, y)
    ensures j <= |s| && Reads(s, endch, i, k, s[i..j] + y)
  {
    assert s[i..k] == s[i..j] + s[j..k];
    assert s[i..k] + Last(endch) == s[i..j] + (s[j..k] + Last(endch));
  }

  lemma ReadsThen(s: seq<char>, endch: char, i: nat, j: nat, k: nat, x: seq<char>, y: seq<char>)
    requires Reads(s, endch, i, j, x) && Reads(s, endch, j, k, y) && j < |s| && s[j] != '\0'
    ensures Reads(s, endch, i, k, x + y)
  {
    ReadsAfter(s, endch, i, j, k, y);
  }

  /** The characters on the way are not NUL. */
  lemma ReadsSlice(s: seq<char>, endch: char, i: nat, j: nat)
    requires Terminated(s) && i <= j < |s| && i <= Nul(s) && forall k: nat | i <= k < j :: s[k] != '\0'
    ensures Reads(s, endch, i, j, s[i..j])
  {
    assert j <= Nul(s);
  }

  lemma ReadsOne(s: seq<char>, endch: char, i: nat)
    requires Terminated(s) && i < |s| && i <= Nul(s) && s[i] != '\0'
    ensures i + 1 < |s| && Reads(s, endch, i, i + 1, [s[i]])
  {
  }

  lemma ReadsLast(s: seq<char>, endch: char, i: nat)
    requires Terminated(s) && i < |s| && i <= Nul(s) && s[i] == '\0' && endch != '\0'
    ensures Reads(s, endch, i, i, [endch])
  {
    assert i == Nul(s);
    assert s[i..i] + Last(endch) == [endch];
  }

  lemma TraceParts(s: seq<char>, endch: char, i: nat, bs: seq<Built>)
    requires Trace(s, endch, i, bs)
    ensures Terminated(s) && i <= Nul(s) && AllOk(bs) && bs != [] && Reads(s, endch, 0, i, Written(bs))
  {
  }

  lemma AddOk(bs: seq<Built>, t: Spelled)
    requires AllOk(bs) && Good(t) && Matched(t) && (Fresh(bs) || t.SpelledElement?)
    ensures AllOk(AddItem(bs, t)) && Written(AddItem(bs, t)) == Written(bs) + Write(t)
  {
    hide Good, Matched, BuiltOk, Write;
    var n := |bs| - 1;
    var bs' := AddItem(bs, t);
    assert BuiltOk(bs[n], n == 0);
    OneBuiltOk(bs[n], n == 0, t);
    forall k: nat | k < |bs'| ensures BuiltOk(bs'[k], k == 0) { assert BuiltOk(bs[k], k == 0); }
    AddWritten(bs, t);
  }

  lemma OneBuiltOk(b: Built, first: bool, t: Spelled)
    requires BuiltOk(b, first) && Good(t) && Matched(t) && (b.items == [] || b.items[|b.items| - 1].SpelledElement? || t.SpelledElement?)
    ensures BuiltOk(b.(items := b.items + [t]), first)
  {
    hide Good, Matched, ValidName, GoodAttributes, IsBlank;
    OneMoreGood(b.items, t);
    OneMoreMatched(b.items, t);
  }

  lemma AddWritten(bs: seq<Built>, t: Spelled)
    requires bs != []
    ensures Written(AddItem(bs, t)) == Written(bs) + Write(t)
  {
    hide Write, WriteStart, WriteAll;
    var n := |bs| - 1;
    OneMoreWritten(bs[n].items, t);
    if n > 0 {
      assert AddItem(bs, t)[..n] == bs[..n];
      FourParts(Written(bs[..n]), WriteStart(bs[n].name, bs[n].attributes, bs[n].gap, false), WriteAll(bs[n].items), Write(t));
    }
  }

  lemma FourParts(w: seq<char>, x: seq<char>, y: seq<char>, e: seq<char>)
    ensures w + (x + (y + e)) == (w + (x + y)) + e
  {
  }

  /** An item has been read. */
  lemma AddRead(s: seq<char>, endch: char, i: nat, j: nat, bs: seq<Built>, t: Spelled)
    requires Trace(s, endch, i, bs) && i < |s| && s[i] != '\0' && Reads(s, endch, i, j, Write(t))
    requires Good(t) && Matched(t) && (Fresh(bs) || t.SpelledElement?)
    ensures Trace(s, endch, j, AddItem(bs, t)) && (t.SpelledElement? ==> Fresh(AddItem(bs, t)))
  {
    hide Reads, Good, Matched, Write, Written, BuiltOk;
    AddOk(bs, t);
    ReadsThen(s, endch, 0, i, j, Written(bs), Write(t));
  }

  /** A start tag has been read. */
  lemma OpenRead(s: seq<char>, endch: char, i: nat, j: nat, bs: seq<Built>, b: Built)
    requires Trace(s, endch, i, bs) && i < |s| && s[i] != '\0' && b.items == [] && BuiltOk(b, false)
    requires Reads(s, endch, i, j, WriteStart(b.name, b.attributes, b.gap, false))
    ensures Trace(s, endch, j, bs + [b]) && Fresh(bs + [b])
  {
    hide Reads, WriteStart, ValidName, GoodAttributes, IsBlank, GoodAll, MatchedAll;
    var bs', x := bs + [b], WriteStart(b.name, b.attributes, b.gap, false);
    assert bs'[..|bs|] == bs;
    assert x + [] == x;
    ReadsThen(s, endch, 0, i, j, Written(bs), x);
    forall k: nat | k < |bs'| ensures BuiltOk(bs'[k], k == 0) {
      if k < |bs| { assert BuiltOk(bs[k], k == 0); }
    }
  }

  /** The innermost element, complete. */
  function Complete(b: Built, gap: seq<char>): Spelled {
    SpelledElement(b.name, b.attributes, b.gap, false, b.items, b.name, gap)
  }

  lemma CompleteIs(b: Built, gap: seq<char>)
    requires BuiltOk(b, false) && IsBlank(gap)
    ensures var t := Complete(b, gap);
            && Good(t) && Matched(t)
            && Write(t) == WriteStart(b.name, b.attributes, b.gap, false) + (WriteAll(b.items) + WriteEnd(b.name, gap))
  {
    hide GoodAttributes, IsBlank, WriteStart, WriteEnd, IsWord, ValidName;
    NameIsWord(b.name);
  }

  lemma OuterOk(bs: seq<Built>)
    requires AllOk(bs) && |bs| > 1
    ensures AllOk(bs[..|bs| - 1]) && BuiltOk(bs[|bs| - 1], false)
  {
    hide BuiltOk;
    var outer := bs[..|bs| - 1];
    forall k: nat | k < |outer| ensures BuiltOk(outer[k], k == 0) { assert BuiltOk(bs[k], k == 0); }
    assert BuiltOk(bs[|bs| - 1], |bs| - 1 == 0);
  }

  lemma PopOk(bs: seq<Built>, gap: seq<char>)
    requires AllOk(bs) && |bs| > 1 && IsBlank(gap)
    ensures AllOk(PopBuilt(bs, gap)) && Written(PopBuilt(bs, gap)) == Written(bs) + WriteEnd(bs[|bs| - 1].name, gap)
    ensures Fresh(PopBuilt(bs, gap))
  {
    hide Good, Matched, Write, BuiltOk, AllOk, Fresh, AddItem, Written, WriteAll, WriteStart, WriteEnd, IsBlank;
    var n := |bs| - 1;
    var b := bs[n];
    OuterOk(bs);
    CompleteIs(b, gap);
    AddOk(bs[..n], Complete(b, gap));
    FreshElement(bs[..n], Complete(b, gap));
    WrittenOpen(bs);
    FourParts(Written(bs[..n]), WriteStart(b.name, b.attributes, b.gap, false), WriteAll(b.items), WriteEnd(b.name, gap));
  }

  lemma NameIsWord(name: seq<char>)
    requires ValidName(name)
    ensures IsWord(name) && name != [] && IsStart(name[0])
  {
  }

  lemma FreshElement(bs: seq<Built>, t: Spelled)
    requires bs != [] && t.SpelledElement?
    ensures Fresh(AddItem(bs, t))
  {
  }

  lemma WrittenOpen(bs: seq<Built>)
    requires |bs| > 1
    ensures var n := |bs| - 1;
            Written(bs) == Written(bs[..n]) + (WriteStart(bs[n].name, bs[n].attributes, bs[n].gap, false) + WriteAll(bs[n].items))
  {
  }

  /** An end tag has been read. */
  lemma CloseRead(s: seq<char>, endch: char, i: nat, j: nat, bs: seq<Built>, gap: seq<char>)
    requires Trace(s, endch, i, bs) && i < |s| && s[i] != '\0' && |bs| > 1 && IsBlank(gap)
    requires Reads(s, endch, i, j, WriteEnd(bs[|bs| - 1].name, gap))
    ensures Trace(s, endch, j, PopBuilt(bs, gap)) && Fresh(PopBuilt(bs, gap))
  {
    hide Reads, AllOk, PopBuilt, Written, WriteEnd, IsBlank;
    PopOk(bs, gap);
    ReadsThen(s, endch, 0, i, j, Written(bs), WriteEnd(bs[|bs| - 1].name, gap));
  }

  // ----- the trees of what has been read -----

  function FrameOf(b: Built, first: bool): Frame {
    Frame(b.name, AttributesOf(b.attributes), if first then Outline(b.items) else MeaningAll(b.items))
  }

  function FramesOf(bs: seq<Built>): (frames: seq<Frame>)
    ensures |frames| == |bs| && forall k: nat | k < |bs| :: frames[k] == FrameOf(bs[k], k == 0)
  {
    seq(|bs|, k requires 0 <= k < |bs| => FrameOf(bs[k], k == 0))
  }

  lemma AddFrames(bs: seq<Built>, t: Spelled)
    requires bs != []
    ensures FramesOf(AddItem(bs, t)) == AddKids(FramesOf(bs), Gives(t, |bs| > 1))
  {
    hide Meaning, AttributesOf;
    var n := |bs| - 1;
    if n > 0 { OneMoreMeant(bs[n].items, t); } else { OneMoreShown(bs[n].items, t); }
    var f, g := FramesOf(AddItem(bs, t)), AddKids(FramesOf(bs), Gives(t, |bs| > 1));
    forall k: nat | k < |bs| ensures f[k] == g[k] {
    }
  }

  lemma OpenFrames(bs: seq<Built>, b: Built)
    requires bs != [] && b.items == []
    ensures FramesOf(bs + [b]) == FramesOf(bs) + [Frame(b.name, AttributesOf(b.attributes), [])]
  {
  }

  lemma PopFrames(bs: seq<Built>, gap: seq<char>)
    requires |bs| > 1
    ensures FramesOf(PopBuilt(bs, gap)) == Pop(FramesOf(bs))
  {
    hide MeaningAll, Outline, AttributesOf, AddItem, AddKids;
    var n := |bs| - 1;
    var b := bs[n];
    AddFrames(bs[..n], Complete(b, gap));
    assert FramesOf(bs[..n]) == FramesOf(bs)[..n];
  }

  /** The open elements behind a start tag. */
  function Started(frames: seq<Frame>, name: seq<char>, attributes: seq<Attribute>, closed: bool): seq<Frame>
    requires frames != []
  {
    if closed then AddKids(frames, [Element(name, attributes, [])]) else frames + [Frame(name, attributes, [])]
  }
}
