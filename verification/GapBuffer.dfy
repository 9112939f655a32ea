/**
  `gap` of xml/pugixml.cpp: text is decoded in place; what was dropped leaves a gap that is carried along and
  closed lazily.  A buffer is an array of characters below 256, ended by NUL.
*/
module GapBuffer {

  /** One gap, of `size` characters, ending at `end`; or none yet. */
  datatype View = View(open: bool, end: nat, size: nat)

  /** The text from `begin` up to `s`, without the gap. */
  ghost function Text(b: seq<char>, begin: nat, s: nat, g: View): seq<char>
    requires begin <= s <= |b| && (g.open ==> begin + g.size <= g.end <= s)
  {
    if g.open then b[begin..g.end - g.size] + b[g.end..s] else b[begin..s]
  }

  /**
    Where decoding stands: the buffer was `t` at first, what has been read from `begin` up to `s` has become
    `done`, and the rest is untouched, as is what lies before `begin`.
   */
  ghost predicate Decoding(t: seq<char>, b: seq<char>, begin: nat, s: nat, g: View, done: seq<char>) {
    && |b| == |t| && begin <= s <= |t| && (g.open ==> begin + g.size <= g.end <= s)
    && (forall i: nat | s <= i < |t| :: b[i] == t[i]) && (forall i: nat | i < begin :: b[i] == t[i])
    && done == Text(b, begin, s, g)
  }

  /** Memory after `memmove` of `n` characters from `src` down to `dst`. */
  ghost function Moved(b: seq<char>, dst: nat, src: nat, n: nat): (r: seq<char>)
    requires dst <= src && src + n <= |b|
    ensures |r| == |b|
  {
    b[..dst] + b[src..src + n] + b[dst + n..]
  }

  method MemMove(a: array<char>, dst: nat, src: nat, n: nat)
    requires dst <= src && src + n <= a.Length
    modifies a
    ensures a[..] == Moved(old(a[..]), dst, src, n)
  {
    ghost var b := a[..];
    var i: nat := 0;
    while i < n
      invariant i <= n && a[..] == Moved(b, dst, src, i)
    {
      MoveOne(b, dst, src, i);
      a[dst + i] := a[src + i];
      i := i + 1;
    }
  }

  lemma MoveOne(b: seq<char>, dst: nat, src: nat, i: nat)
    requires dst <= src && src + i < |b|
    ensures Moved(b, dst, src, i)[dst + i := Moved(b, dst, src, i)[src + i]] == Moved(b, dst, src, i + 1)
  {
    assert Moved(b, dst, src, i)[src + i] == b[src + i];
  }

  lemma GapInside(t: seq<char>, b: seq<char>, begin: nat, s: nat, g: View, done: seq<char>)
    requires Decoding(t, b, begin, s, g, done)
    ensures begin <= s <= |t| == |b| && (g.open ==> begin + g.size <= g.end <= s)
  {
  }

  // ----- what each change does to the text -----

  /** Reading on over a character that stays. */
  lemma Keep(t: seq<char>, b: seq<char>, begin: nat, s: nat, g: View, done: seq<char>)
    requires Decoding(t, b, begin, s, g, done) && s < |t|
    ensures Decoding(t, b, begin, s + 1, g, done + [t[s]])
  {
    if g.open {
      assert b[g.end..s + 1] == b[g.end..s] + [b[s]];
      assert Text(b, begin, s + 1, g) == done + [b[s]];
    } else {
      assert b[begin..s + 1] == b[begin..s] + [b[s]];
    }
  }

  /** Writing a character over the next one. */
  lemma Write(t: seq<char>, b: seq<char>, begin: nat, s: nat, g: View, done: seq<char>, c: char)
    requires Decoding(t, b, begin, s, g, done) && s < |t|
    ensures Decoding(t, b[s := c], begin, s + 1, g, done + [c])
  {
    var b' := b[s := c];
    if g.open {
      assert b'[begin..g.end - g.size] == b[begin..g.end - g.size] && b'[g.end..s + 1] == b[g.end..s] + [c];
      assert Text(b', begin, s + 1, g) == done + [c];
    } else {
      assert b'[begin..s + 1] == b[begin..s] + [c];
    }
  }

  /** Dropping `count` characters; an older gap is closed, and joins the new one. */
  lemma Dropped(t: seq<char>, b: seq<char>, begin: nat, s: nat, g: View, done: seq<char>, count: nat)
    requires Decoding(t, b, begin, s, g, done) && s + count <= |t|
    ensures var b' := if g.open then Moved(b, g.end - g.size, g.end, s - g.end) else b;
            Decoding(t, b', begin, s + count, View(true, s + count, (if g.open then g.size else 0) + count), done)
  {
    if g.open {
      var b' := Moved(b, g.end - g.size, g.end, s - g.end);
      assert b'[begin..s - g.size] == done by {
        assert b'[begin..g.end - g.size] == b[begin..g.end - g.size];
        assert b'[g.end - g.size..s - g.size] == b[g.end..s];
        assert b'[begin..s - g.size] == b'[begin..g.end - g.size] + b'[g.end - g.size..s - g.size];
      }
      DroppedText(b', begin, s + count, s - g.size, done);
    } else {
      DroppedText(b, begin, s + count, s, done);
    }
  }

  lemma DroppedText(b: seq<char>, begin: nat, e: nat, s: nat, done: seq<char>)
    requires begin <= s <= e <= |b| && b[begin..s] == done
    ensures Text(b, begin, e, View(true, e, e - s)) == done
  {
    assert b[e..e] == [];
  }

  /** Closing the gap for good. */
  lemma Flushed(t: seq<char>, b: seq<char>, begin: nat, s: nat, g: View, done: seq<char>)
    requires Decoding(t, b, begin, s, g, done)
    ensures var b' := if g.open then Moved(b, g.end - g.size, g.end, s - g.end) else b;
            && |b'| == |t| && begin + |done| == (if g.open then s - g.size else s) && b'[begin..begin + |done|] == done
            && (forall i: nat | i < begin :: b'[i] == t[i]) && (forall i: nat | s <= i < |t| :: b'[i] == t[i])
  {
  }

  class Gap {
    var open: bool
    var end: nat
    var size: nat

    constructor ()
      ensures Now() == View(false, 0, 0)
    {
      open, end, size := false, 0, 0;
    }

    ghost function Now(): View
      reads this
    {
      View(open, end, size)
    }

    /** `gap::push`: moves on by `count`, skipping what is dropped. */
    method Push(a: array<char>, s: nat, count: nat, ghost t: seq<char>, ghost begin: nat, ghost done: seq<char>)
      returns (next: nat)
      requires Decoding(t, a[..], begin, s, Now(), done) && s + count <= a.Length && (!open ==> size == 0)
      modifies this, a
      ensures next == s + count && open && Decoding(t, a[..], begin, next, Now(), done)
    {
      hide Decoding, Text, Moved;
      GapInside(t, a[..], begin, s, Now(), done);
      Dropped(t, a[..], begin, s, Now(), done, count);
      if open {
        MemMove(a, end - size, end, s - end);
      }
      next := s + count;
      open := true;
      end := next;
      size := size + count;
    }

    /** `gap::flush`: the place behind the decoded text. */
    method Flush(a: array<char>, s: nat, ghost t: seq<char>, ghost begin: nat, ghost done: seq<char>) returns (e: nat)
      requires Decoding(t, a[..], begin, s, Now(), done)
      modifies a
      ensures e == begin + |done| <= s <= a.Length == |t| && a[..][begin..e] == done
      ensures forall i: nat | i < begin || s <= i < |t| :: a[i] == t[i]
    {
      hide Decoding, Text, Moved;
      GapInside(t, a[..], begin, s, Now(), done);
      Flushed(t, a[..], begin, s, Now(), done);
      if open {
        MemMove(a, end - size, end, s - end);
        e := s - size;
      } else {
        e := s;
      }
    }
  }
}
