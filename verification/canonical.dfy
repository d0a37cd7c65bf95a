/**
  What the normal form buys: a normalised operation list is determined by
  what it writes on a document whose elements are all different and
  remember where they came from. So two valid, normalised sequences that
  write the same on every document are the same value, field by field.
  This turns the document-level laws of Compose and Transform into
  structural ones: the two composites of a transformed pair are equal
  (the `reflect.DeepEqual` of sequence_test.go:235), and composition is
  associative.
 */
module Canonical {
  import opened Operations
  import opened Sequences
  import opened Documents
  import C = Composition
  import T = Transformation

  /** An element of a tagged document: the original character at position i, or an inserted character. */
  datatype Tag = Src(i: nat) | Ins(c: char)

  function Fresh(c: char): Tag { Ins(c) }

  /** The original positions off, off+1, ..., off+n-1. */
  function Span(off: nat, n: nat): (r: seq<Tag>)
    ensures |r| == n
  {
    seq(n, i requires 0 <= i => Src(off + i))
  }

  lemma SpanSplit(off: nat, a: nat, b: nat)
    ensures Span(off, a + b) == Span(off, a) + Span(off + a, b)
  {
    var x, y := Span(off, a + b), Span(off, a) + Span(off + a, b);
    assert forall i :: 0 <= i < a + b ==> x[i] == y[i];
  }

  /** What a list writes on the tagged document of its base length that starts at position off. */
  function Out(ops: seq<Op>, off: nat): (r: seq<Tag>)
    ensures |r| == TargetOf(ops)
  {
    Run(ops, Span(off, BaseOf(ops)), Fresh)
  }

  lemma {:induction false} LiftFresh(s: seq<char>)
    ensures forall i :: 0 <= i < |s| ==> Lift(s, Fresh)[i] == Ins(s[i])
  {
    if s != [] {
      LiftFresh(s[1..]);
    }
  }

  /** How many elements at the front of a tagged document are original positions counting up from off. */
  function SrcRun(out: seq<Tag>, off: nat): (k: nat)
    ensures k <= |out|
  {
    if out != [] && out[0] == Src(off) then 1 + SrcRun(out[1..], off + 1) else 0
  }

  /** How many elements at the front of a tagged document are inserted characters. */
  function InsRun(out: seq<Tag>): (k: nat)
    ensures k <= |out|
  {
    if out != [] && out[0].Ins? then 1 + InsRun(out[1..]) else 0
  }

  lemma {:induction false} SrcRunSpan(off: nat, n: nat, rest: seq<Tag>)
    ensures SrcRun(Span(off, n) + rest, off) == n + SrcRun(rest, off + n)
    decreases n
  {
    if n > 0 {
      var x := Span(off, n) + rest;
      assert x[0] == Src(off);
      assert x[1..] == Span(off + 1, n - 1) + rest;
      SrcRunSpan(off + 1, n - 1, rest);
    } else {
      assert Span(off, n) + rest == rest;
    }
  }

  lemma {:induction false} InsRunLift(s: seq<char>, rest: seq<Tag>)
    ensures InsRun(Lift(s, Fresh) + rest) == |s| + InsRun(rest)
  {
    if s != [] {
      var x := Lift(s, Fresh) + rest;
      assert x[0] == Ins(s[0]);
      assert x[1..] == Lift(s[1..], Fresh) + rest;
      InsRunLift(s[1..], rest);
    } else {
      assert Lift(s, Fresh) + rest == rest;
    }
  }

  lemma OutRetain(ops: seq<Op>, off: nat)
    requires ops != [] && ops[0].Retain?
    ensures Out(ops, off) == Span(off, ops[0].n) + Out(ops[1..], off + ops[0].n)
  {
    var n := ops[0].n;
    SpanSplit(off, n, BaseOf(ops[1..]));
    RunRetainHead(ops, Span(off, n), Span(off + n, BaseOf(ops[1..])), Fresh);
  }

  lemma OutDelete(ops: seq<Op>, off: nat)
    requires ops != [] && ops[0].Delete?
    ensures Out(ops, off) == Out(ops[1..], off + ops[0].n)
  {
    var n := ops[0].n;
    SpanSplit(off, n, BaseOf(ops[1..]));
    RunDeleteHead(ops, Span(off, n), Span(off + n, BaseOf(ops[1..])), Fresh);
  }

  lemma OutInsert(ops: seq<Op>, off: nat)
    requires ops != [] && ops[0].Insert?
    ensures Out(ops, off) == Lift(ops[0].s, Fresh) + Out(ops[1..], off)
  {
    RunInsertHead(ops, Span(off, BaseOf(ops[1..])), Fresh);
  }

  /** The head of a normalised list is not empty, the tail is normalised, and the two kinds may be neighbours. */
  lemma NormalTail(ops: seq<Op>)
    requires Normal(ops) && ops != []
    ensures Size(ops[0]) > 0 && Normal(ops[1..])
    ensures |ops| > 1 ==> MayFollow(ops[0], ops[1])
  {
    NormalCons(ops[0], ops[1..]);
    assert ops == [ops[0]] + ops[1..];
  }

  /**
    The first element a normalised list writes on a tagged document tells
    its head's kind: an inserted character for an insert, the first original
    position for a retain, and for a delete of n either nothing (the delete
    ends the list) or the position n further on (a retain follows it).
   */
  lemma Lead(ops: seq<Op>, off: nat)
    requires Normal(ops)
    ensures Out(ops, off) == [] <==> ops == [] || (|ops| == 1 && ops[0].Delete?)
    ensures ops != [] && ops[0].Insert? ==> Out(ops, off)[0] == Ins(ops[0].s[0])
    ensures ops != [] && ops[0].Retain? ==> Out(ops, off)[0] == Src(off)
    ensures |ops| > 1 && ops[0].Delete? ==> Out(ops, off)[0] == Src(off + ops[0].n)
  {
    if ops != [] {
      NormalTail(ops);
      match ops[0]
      case Insert(s) =>
        OutInsert(ops, off);
        LiftFresh(s);
      case Retain(n) =>
        OutRetain(ops, off);
      case Delete(n) =>
        OutDelete(ops, off);
        if |ops| > 1 {
          OutRetain(ops[1..], off + n);
        }
    }
  }

  /**
    Uniqueness of the normal form: two normalised lists of the same base
    length that write the same tagged document are equal.
   */
  lemma {:induction false} Unique(p: seq<Op>, q: seq<Op>, off: nat)
    requires Normal(p) && Normal(q) && BaseOf(p) == BaseOf(q) && Out(p, off) == Out(q, off)
    ensures p == q
    decreases |p| + |q|, 1
  {
    Lead(p, off);
    Lead(q, off);
    if p == [] || q == [] {
      if p != [] {
        NormalTail(p);
      } else if q != [] {
        NormalTail(q);
      }
    } else {
      NormalTail(p);
      NormalTail(q);
      if p[0].Insert? && q[0].Insert? {
        InsertsAgree(p, q, off);
      } else if p[0].Retain? && q[0].Retain? {
        RetainsAgree(p, q, off);
      } else if p[0].Delete? && q[0].Delete? {
        DeletesAgree(p, q, off);
      }
    }
  }

  /**
    A normalised list with an insert at its head writes the text and then
    what its tail writes, which does not start with an inserted character.
   */
  lemma InsertView(ops: seq<Op>, off: nat)
    requires Normal(ops) && ops != [] && ops[0].Insert?
    ensures Normal(ops[1..]) && BaseOf(ops[1..]) == BaseOf(ops)
    ensures Out(ops, off) == Lift(ops[0].s, Fresh) + Out(ops[1..], off)
    ensures Out(ops[1..], off) == [] || !Out(ops[1..], off)[0].Ins?
  {
    OutInsert(ops, off);
    NormalTail(ops);
    Lead(ops[1..], off);
  }

  /**
    A normalised list with a retain of n at its head copies n originals from
    off and then writes what its tail writes, which does not continue them.
   */
  lemma RetainView(ops: seq<Op>, off: nat)
    requires Normal(ops) && ops != [] && ops[0].Retain?
    ensures Normal(ops[1..]) && ops[0].n + BaseOf(ops[1..]) == BaseOf(ops)
    ensures Out(ops, off) == Span(off, ops[0].n) + Out(ops[1..], off + ops[0].n)
    ensures Out(ops[1..], off + ops[0].n) == [] || Out(ops[1..], off + ops[0].n)[0] != Src(off + ops[0].n)
  {
    OutRetain(ops, off);
    NormalTail(ops);
    Lead(ops[1..], off + ops[0].n);
    if |ops| > 1 {
      NormalTail(ops[1..]);
    }
  }

  /**
    A normalised list with a delete of n at its head writes what its tail
    writes from off+n: nothing at all when the delete ends the list, and
    otherwise a retain's copy starting with the original at off+n.
   */
  lemma DeleteView(ops: seq<Op>, off: nat)
    requires Normal(ops) && ops != [] && ops[0].Delete?
    ensures Normal(ops[1..]) && ops[0].n + BaseOf(ops[1..]) == BaseOf(ops)
    ensures Out(ops, off) == Out(ops[1..], off + ops[0].n)
    ensures ops[1..] == [] ==> Out(ops[1..], off + ops[0].n) == [] && BaseOf(ops[1..]) == 0
    ensures ops[1..] != [] ==> Out(ops[1..], off + ops[0].n) != [] && Out(ops[1..], off + ops[0].n)[0] == Src(off + ops[0].n)
  {
    OutDelete(ops, off);
    NormalTail(ops);
    Lead(ops[1..], off + ops[0].n);
  }

  /** Two texts written in front of documents that do not start with an inserted character are equal, and so are the documents. */
  lemma InsertedPrefix(t: seq<char>, x: seq<Tag>, u: seq<char>, y: seq<Tag>)
    requires Lift(t, Fresh) + x == Lift(u, Fresh) + y
    requires x == [] || !x[0].Ins?
    requires y == [] || !y[0].Ins?
    ensures t == u && x == y
  {
    InsRunLift(t, x);
    InsRunLift(u, y);
    LiftFresh(t);
    LiftFresh(u);
    var z := Lift(t, Fresh) + x;
    assert forall i :: 0 <= i < |t| ==> Ins(t[i]) == z[i] == Ins(u[i]);
    assert x == z[|t|..] == y;
  }

  /** Two runs of original positions from off in front of documents that do not continue them have the same length. */
  lemma OriginalPrefix(off: nat, n: nat, x: seq<Tag>, m: nat, y: seq<Tag>)
    requires Span(off, n) + x == Span(off, m) + y
    requires x == [] || x[0] != Src(off + n)
    requires y == [] || y[0] != Src(off + m)
    ensures n == m && x == y
  {
    SrcRunSpan(off, n, x);
    SrcRunSpan(off, m, y);
    var z := Span(off, n) + x;
    assert x == z[n..] == y;
  }

  lemma HeadTail(p: seq<Op>, q: seq<Op>)
    requires p != [] && q != [] && p[0] == q[0] && p[1..] == q[1..]
    ensures p == q
  {
    assert p == [p[0]] + p[1..] && q == [q[0]] + q[1..];
  }

  /** Two inserts at the head: the same text, and the tails write the same. */
  lemma InsertHeads(p: seq<Op>, q: seq<Op>, off: nat)
    requires Normal(p) && Normal(q) && BaseOf(p) == BaseOf(q) && Out(p, off) == Out(q, off)
    requires p != [] && q != [] && p[0].Insert? && q[0].Insert?
    ensures p[0] == q[0] && Normal(p[1..]) && Normal(q[1..]) && BaseOf(p[1..]) == BaseOf(q[1..])
    ensures Out(p[1..], off) == Out(q[1..], off)
  {
    InsertView(p, off);
    InsertView(q, off);
    InsertedPrefix(p[0].s, Out(p[1..], off), q[0].s, Out(q[1..], off));
  }

  /** Two retains at the head: the same count, and the tails write the same. */
  lemma RetainHeads(p: seq<Op>, q: seq<Op>, off: nat)
    requires Normal(p) && Normal(q) && BaseOf(p) == BaseOf(q) && Out(p, off) == Out(q, off)
    requires p != [] && q != [] && p[0].Retain? && q[0].Retain?
    ensures p[0] == q[0] && Normal(p[1..]) && Normal(q[1..]) && BaseOf(p[1..]) == BaseOf(q[1..])
    ensures Out(p[1..], off + p[0].n) == Out(q[1..], off + p[0].n)
  {
    RetainView(p, off);
    RetainView(q, off);
    OriginalPrefix(off, p[0].n, Out(p[1..], off + p[0].n), q[0].n, Out(q[1..], off + q[0].n));
  }

  /** Two deletes at the head: the same count, and the tails write the same. */
  lemma DeleteHeads(p: seq<Op>, q: seq<Op>, off: nat)
    requires Normal(p) && Normal(q) && BaseOf(p) == BaseOf(q) && Out(p, off) == Out(q, off)
    requires p != [] && q != [] && p[0].Delete? && q[0].Delete?
    ensures p[0] == q[0] && Normal(p[1..]) && Normal(q[1..]) && BaseOf(p[1..]) == BaseOf(q[1..])
    ensures Out(p[1..], off + p[0].n) == Out(q[1..], off + p[0].n)
  {
    DeleteView(p, off);
    DeleteView(q, off);
  }

  lemma {:induction false} InsertsAgree(p: seq<Op>, q: seq<Op>, off: nat)
    requires Normal(p) && Normal(q) && BaseOf(p) == BaseOf(q) && Out(p, off) == Out(q, off)
    requires p != [] && q != [] && p[0].Insert? && q[0].Insert?
    ensures p == q
    decreases |p| + |q|, 0
  {
    InsertHeads(p, q, off);
    Unique(p[1..], q[1..], off);
    HeadTail(p, q);
  }

  lemma {:induction false} RetainsAgree(p: seq<Op>, q: seq<Op>, off: nat)
    requires Normal(p) && Normal(q) && BaseOf(p) == BaseOf(q) && Out(p, off) == Out(q, off)
    requires p != [] && q != [] && p[0].Retain? && q[0].Retain?
    ensures p == q
    decreases |p| + |q|, 0
  {
    RetainHeads(p, q, off);
    Unique(p[1..], q[1..], off + p[0].n);
    HeadTail(p, q);
  }

  lemma {:induction false} DeletesAgree(p: seq<Op>, q: seq<Op>, off: nat)
    requires Normal(p) && Normal(q) && BaseOf(p) == BaseOf(q) && Out(p, off) == Out(q, off)
    requires p != [] && q != [] && p[0].Delete? && q[0].Delete?
    ensures p == q
    decreases |p| + |q|, 0
  {
    DeleteHeads(p, q, off);
    Unique(p[1..], q[1..], off + p[0].n);
    HeadTail(p, q);
  }

  /**
    A valid, normalised sequence is determined by what it writes on the
    tagged document of its base length.
   */
  lemma SameOutputSameSequence(p: Sequence, q: Sequence)
    requires Valid(p) && Valid(q) && Normal(p.ops) && Normal(q.ops) && p.baseLen == q.baseLen
    requires Out(p.ops, 0) == Out(q.ops, 0)
    ensures p == q
  {
    Unique(p.ops, q.ops, 0);
  }

  /**
    The two composites of a transformed pair, `a` then `b'` and `b` then
    `a'`, are the same sequence: same operations, same counters.
   */
  lemma TransformCompositesEqual(a: Sequence, b: Sequence)
    requires Valid(a) && Valid(b) && NonEmptyOps(a.ops) && NonEmptyOps(b.ops) && a.baseLen == b.baseLen
    ensures T.Transform(a, b).Ok?
    ensures var r := T.Transform(a, b).value;
      && C.Compose(a, r.1).Ok? && C.Compose(b, r.0).Ok?
      && C.Compose(a, r.1).value == C.Compose(b, r.0).value
  {
    T.TransformSucceeds(a, b);
    var r := T.Transform(a, b).value;
    C.ComposeSucceeds(a, r.1);
    C.ComposeSucceeds(b, r.0);
    var d := Span(0, a.baseLen);
    C.ComposeMeaning(a, r.1, d, Fresh);
    C.ComposeMeaning(b, r.0, d, Fresh);
    T.TransformMeaning(a, b, d, Fresh);
    SameOutputSameSequence(C.Compose(a, r.1).value, C.Compose(b, r.0).value);
  }

  /** Composition is associative, as values and not only in its effect on documents. */
  lemma ComposeAssociative(a: Sequence, b: Sequence, c: Sequence)
    requires Valid(a) && Valid(b) && Valid(c)
    requires NonEmptyOps(a.ops) && NonEmptyOps(b.ops) && NonEmptyOps(c.ops)
    requires a.targetLen == b.baseLen && b.targetLen == c.baseLen
    ensures C.Compose(a, b).Ok? && C.Compose(b, c).Ok?
    ensures C.Compose(C.Compose(a, b).value, c).Ok? && C.Compose(a, C.Compose(b, c).value).Ok?
    ensures C.Compose(C.Compose(a, b).value, c).value == C.Compose(a, C.Compose(b, c).value).value
  {
    C.ComposeSucceeds(a, b);
    C.ComposeSucceeds(b, c);
    var ab, bc := C.Compose(a, b).value, C.Compose(b, c).value;
    C.ComposeSucceeds(ab, c);
    C.ComposeSucceeds(a, bc);
    var d := Span(0, a.baseLen);
    C.ComposeMeaning(a, b, d, Fresh);
    C.ComposeMeaning(ab, c, d, Fresh);
    C.ComposeMeaning(b, c, Run(a.ops, d, Fresh), Fresh);
    C.ComposeMeaning(a, bc, d, Fresh);
    SameOutputSameSequence(C.Compose(ab, c).value, C.Compose(a, bc).value);
  }
}
