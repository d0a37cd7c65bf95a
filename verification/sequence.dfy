/**
  The `Sequence` of sequence.go: a list of operations with the two length
  counters, the three builders that keep the list in normal form as they
  append, and `IsNoop`.
 */
module Sequences {
  import opened Operations

  /** `BaseLen` is the document length it applies to, `TargetLen` the length it produces. */
  datatype Sequence = Sequence(ops: seq<Op>, baseLen: nat, targetLen: nat)

  /** Characters an operation list reads: Σ retain + Σ delete. */
  function BaseOf(ops: seq<Op>): nat {
    if ops == [] then 0 else Consumed(ops[0]) + BaseOf(ops[1..])
  }

  /** Characters an operation list writes: Σ retain + Σ |insert|. */
  function TargetOf(ops: seq<Op>): nat {
    if ops == [] then 0 else Produced(ops[0]) + TargetOf(ops[1..])
  }

  lemma {:induction false} LengthsConcat(xs: seq<Op>, ys: seq<Op>)
    ensures BaseOf(xs + ys) == BaseOf(xs) + BaseOf(ys)
    ensures TargetOf(xs + ys) == TargetOf(xs) + TargetOf(ys)
  {
    if xs == [] {
      assert xs + ys == ys;
    } else {
      assert (xs + ys)[1..] == xs[1..] + ys;
      LengthsConcat(xs[1..], ys);
    }
  }

  lemma LengthsSingle(x: Op)
    ensures BaseOf([x]) == Consumed(x) && TargetOf([x]) == Produced(x)
  {
    assert [x][1..] == [];
  }

  /** The lengths of a list with a given head. */
  lemma LengthsCons(x: Op, xs: seq<Op>)
    ensures BaseOf([x] + xs) == Consumed(x) + BaseOf(xs)
    ensures TargetOf([x] + xs) == Produced(x) + TargetOf(xs)
  {
    LengthsConcat([x], xs);
    LengthsSingle(x);
  }

  /** Replacing the head of a list changes its lengths by what the old and the new head read and write. */
  lemma LengthsUpdate(ops: seq<Op>, v: Op)
    requires ops != []
    ensures BaseOf(ops[0 := v]) + Consumed(ops[0]) == BaseOf(ops) + Consumed(v)
    ensures TargetOf(ops[0 := v]) + Produced(ops[0]) == TargetOf(ops) + Produced(v)
  {
  }

  /** The counters agree with the operations. Every builder keeps this. */
  predicate Valid(q: Sequence) {
    q.baseLen == BaseOf(q.ops) && q.targetLen == TargetOf(q.ops)
  }

  /** No zero-length operation (no `Retain(0)`, `Delete(0)` or `Insert("")`). */
  predicate NonEmptyOps(ops: seq<Op>) {
    forall i :: 0 <= i < |ops| ==> Size(ops[i]) > 0
  }

  lemma NonEmptyCons(x: Op, xs: seq<Op>)
    ensures NonEmptyOps([x] + xs) <==> Size(x) > 0 && NonEmptyOps(xs)
  {
    var ys := [x] + xs;
    assert ys[0] == x;
    assert forall i :: 0 <= i < |xs| ==> ys[i + 1] == xs[i];
  }

  /** The tail of a list without zero-length operations has none either. */
  lemma NonEmptyTail(ops: seq<Op>)
    requires ops != [] && NonEmptyOps(ops)
    ensures NonEmptyOps(ops[1..])
  {
  }

  /** Replacing the head of such a list by a non-empty operation keeps it free of them. */
  lemma NonEmptyUpdate(ops: seq<Op>, v: Op)
    requires ops != [] && NonEmptyOps(ops) && Size(v) > 0
    ensures NonEmptyOps(ops[0 := v])
  {
  }

  /** The normal form the builders maintain. */
  predicate Normal(ops: seq<Op>) {
    && NonEmptyOps(ops)
    && forall i :: 0 < i < |ops| ==> MayFollow(ops[i - 1], ops[i])
  }

  function Last(ops: seq<Op>): Op
    requires ops != []
  {
    ops[|ops| - 1]
  }

  function Init(ops: seq<Op>): seq<Op>
    requires ops != []
  {
    ops[..|ops| - 1]
  }

  lemma SplitLast(ops: seq<Op>)
    requires ops != []
    ensures ops == Init(ops) + [Last(ops)]
  {
  }

  lemma NormalSnoc(xs: seq<Op>, x: Op)
    ensures Normal(xs + [x]) <==> Normal(xs) && Size(x) > 0 && (xs == [] || MayFollow(Last(xs), x))
  {
    var ys := xs + [x];
    if Normal(ys) {
      assert forall i :: 0 <= i < |xs| ==> xs[i] == ys[i];
      if xs != [] {
        assert ys[|xs| - 1] == Last(xs) && ys[|xs|] == x;
      }
    }
  }

  lemma NormalCons(x: Op, xs: seq<Op>)
    ensures Normal([x] + xs) <==> Normal(xs) && Size(x) > 0 && (xs == [] || MayFollow(x, xs[0]))
  {
    var ys := [x] + xs;
    assert ys[0] == x;
    assert forall i :: 0 <= i < |xs| ==> ys[i + 1] == xs[i];
    if Normal(ys) {
      forall i | 0 < i < |xs|
        ensures MayFollow(xs[i - 1], xs[i])
      {
        assert MayFollow(ys[i], ys[i + 1]);
      }
      assert NonEmptyOps(xs) by {
        forall i | 0 <= i < |xs| ensures Size(xs[i]) > 0 {
          assert Size(ys[i + 1]) > 0;
        }
      }
      if xs != [] {
        assert MayFollow(ys[0], ys[1]);
      }
    }
    if Normal(xs) && Size(x) > 0 && (xs == [] || MayFollow(x, xs[0])) {
      forall i | 0 < i < |ys|
        ensures MayFollow(ys[i - 1], ys[i])
      {
        if i > 1 {
          assert ys[i - 1] == xs[i - 2] && ys[i] == xs[i - 1];
        }
      }
    }
  }

  /** `NewSequence`: the empty sequence, both lengths zero. */
  function NewSequence(): (r: Sequence)
    ensures Valid(r) && Normal(r.ops) && r.baseLen == 0 && r.targetLen == 0
  {
    Sequence([], 0, 0)
  }

  /**
    `Delete(n)` (sequence.go:23-37): a zero count appends nothing; otherwise
    `BaseLen` grows by n and the count is merged into a trailing delete or
    appended.
   */
  function AddDelete(q: Sequence, n: nat): (r: Sequence)
    ensures n == 0 ==> r == q
    ensures r.baseLen == q.baseLen + n && r.targetLen == q.targetLen
    ensures BaseOf(r.ops) == BaseOf(q.ops) + n && TargetOf(r.ops) == TargetOf(q.ops)
    ensures Normal(q.ops) ==> Normal(r.ops)
  {
    if n == 0 then q
    else
      PushDeleteFacts(q.ops, n);
      Sequence(PushDelete(q.ops, n), q.baseLen + n, q.targetLen)
  }

  /**
    `Retain(n)` (sequence.go:68-83): a zero count appends nothing; otherwise
    both lengths grow by n and the count is merged into a trailing retain or
    appended.
   */
  function AddRetain(q: Sequence, n: nat): (r: Sequence)
    ensures n == 0 ==> r == q
    ensures r.baseLen == q.baseLen + n && r.targetLen == q.targetLen + n
    ensures BaseOf(r.ops) == BaseOf(q.ops) + n && TargetOf(r.ops) == TargetOf(q.ops) + n
    ensures Normal(q.ops) ==> Normal(r.ops)
  {
    if n == 0 then q
    else
      PushRetainFacts(q.ops, n);
      Sequence(PushRetain(q.ops, n), q.baseLen + n, q.targetLen + n)
  }

  /**
    `Insert(s)` (sequence.go:39-66): empty text appends nothing; otherwise
    `TargetLen` grows by the rune count and the text is placed as
    `PushInsert` says.
   */
  function AddInsert(q: Sequence, s: seq<char>): (r: Sequence)
    ensures s == [] ==> r == q
    ensures r.baseLen == q.baseLen && r.targetLen == q.targetLen + |s|
    ensures BaseOf(r.ops) == BaseOf(q.ops) && TargetOf(r.ops) == TargetOf(q.ops) + |s|
    ensures Normal(q.ops) ==> Normal(r.ops)
  {
    if |s| == 0 then q
    else
      PushInsertFacts(q.ops, s);
      Sequence(PushInsert(q.ops, s), q.baseLen, q.targetLen + |s|)
  }

  /** The list edit of a non-zero `Delete`: merge into a trailing delete, or append. */
  function PushDelete(ops: seq<Op>, n: nat): seq<Op> {
    if ops != [] && Last(ops).Delete? then Init(ops) + [Delete(Last(ops).n + n)]
    else ops + [Delete(n)]
  }

  /** The list edit of a non-zero `Retain`: merge into a trailing retain, or append. */
  function PushRetain(ops: seq<Op>, n: nat): seq<Op> {
    if ops != [] && Last(ops).Retain? then Init(ops) + [Retain(Last(ops).n + n)]
    else ops + [Retain(n)]
  }

  /**
    The list edit of a non-empty `Insert`: concatenate onto a trailing insert;
    after a trailing delete, concatenate onto the insert just before it or
    else slot a new insert in front of the delete; otherwise append.
   */
  function PushInsert(ops: seq<Op>, s: seq<char>): seq<Op> {
    if ops != [] && Last(ops).Insert? then Init(ops) + [Insert(Last(ops).s + s)]
    else if ops != [] && Last(ops).Delete? then
      var init := Init(ops);
      if init != [] && Last(init).Insert? then Init(init) + [Insert(Last(init).s + s), Last(ops)]
      else init + [Insert(s), Last(ops)]
    else ops + [Insert(s)]
  }

  lemma EmptyConcat<T>(ys: seq<T>)
    ensures [] + ys == ys && ys + [] == ys
  {
  }

  lemma Assoc<T>(a: seq<T>, b: seq<T>, c: seq<T>)
    ensures (a + b) + c == a + (b + c)
  {
  }

  /** The head and the tail of a list built by putting one element in front. */
  lemma ConsParts(x: Op, xs: seq<Op>)
    ensures ([x] + xs)[0] == x && ([x] + xs)[1..] == xs
  {
  }

  /** The last element and the rest of a list built by appending one element. */
  lemma SnocLast(xs: seq<Op>, x: Op)
    ensures xs + [x] != [] && Last(xs + [x]) == x && Init(xs + [x]) == xs
  {
  }

  /** The same for a list built by appending two elements. */
  lemma SnocPair(xs: seq<Op>, a: Op, b: Op)
    ensures xs + [a] + [b] == xs + [a, b]
    ensures xs + [a, b] != [] && Last(xs + [a, b]) == b && Init(xs + [a, b]) == xs + [a]
  {
    SnocLast(xs + [a], b);
  }

  lemma PushDeleteFacts(ops: seq<Op>, n: nat)
    requires n > 0
    ensures BaseOf(PushDelete(ops, n)) == BaseOf(ops) + n
    ensures TargetOf(PushDelete(ops, n)) == TargetOf(ops)
    ensures Normal(ops) ==> Normal(PushDelete(ops, n))
  {
    if ops != [] && Last(ops).Delete? {
      SplitLast(ops);
      PushDeleteOnto(Init(ops), Last(ops), n);
      GrowDeleteFacts(Init(ops), Last(ops), n);
    } else {
      PushDeleteAppend(ops, n);
      LengthsConcat(ops, [Delete(n)]);
      LengthsSingle(Delete(n));
      NormalSnoc(ops, Delete(n));
    }
  }

  /** A count added to a trailing delete. */
  lemma GrowDeleteFacts(init: seq<Op>, last: Op, n: nat)
    requires last.Delete?
    ensures BaseOf(init + [Delete(last.n + n)]) == BaseOf(init + [last]) + n
    ensures TargetOf(init + [Delete(last.n + n)]) == TargetOf(init + [last])
    ensures Normal(init + [last]) ==> Normal(init + [Delete(last.n + n)])
  {
    var grown := Delete(last.n + n);
    LengthsConcat(init, [last]);
    LengthsConcat(init, [grown]);
    LengthsSingle(last);
    LengthsSingle(grown);
    NormalSnoc(init, last);
    NormalSnoc(init, grown);
  }

  lemma PushRetainFacts(ops: seq<Op>, n: nat)
    requires n > 0
    ensures BaseOf(PushRetain(ops, n)) == BaseOf(ops) + n
    ensures TargetOf(PushRetain(ops, n)) == TargetOf(ops) + n
    ensures Normal(ops) ==> Normal(PushRetain(ops, n))
  {
    if ops != [] && Last(ops).Retain? {
      SplitLast(ops);
      PushRetainOnto(Init(ops), Last(ops), n);
      GrowRetainFacts(Init(ops), Last(ops), n);
    } else {
      PushRetainAppend(ops, n);
      LengthsConcat(ops, [Retain(n)]);
      LengthsSingle(Retain(n));
      NormalSnoc(ops, Retain(n));
    }
  }

  /** A count added to a trailing retain. */
  lemma GrowRetainFacts(init: seq<Op>, last: Op, n: nat)
    requires last.Retain?
    ensures BaseOf(init + [Retain(last.n + n)]) == BaseOf(init + [last]) + n
    ensures TargetOf(init + [Retain(last.n + n)]) == TargetOf(init + [last]) + n
    ensures Normal(init + [last]) ==> Normal(init + [Retain(last.n + n)])
  {
    var grown := Retain(last.n + n);
    LengthsConcat(init, [last]);
    LengthsConcat(init, [grown]);
    LengthsSingle(last);
    LengthsSingle(grown);
    NormalSnoc(init, last);
    NormalSnoc(init, grown);
  }

  lemma PushInsertFacts(ops: seq<Op>, s: seq<char>)
    requires s != []
    ensures BaseOf(PushInsert(ops, s)) == BaseOf(ops)
    ensures TargetOf(PushInsert(ops, s)) == TargetOf(ops) + |s|
    ensures Normal(ops) ==> Normal(PushInsert(ops, s))
  {
    if ops != [] && Last(ops).Insert? {
      SplitLast(ops);
      GrowInsertFacts(Init(ops), Last(ops), s);
    } else if ops != [] && Last(ops).Delete? {
      var init := Init(ops);
      SplitLast(ops);
      if init != [] && Last(init).Insert? {
        SplitLast(init);
        GrowInsertBeforeDeleteFacts(Init(init), Last(init), Last(ops), s);
      } else {
        InsertBeforeDeleteFacts(init, Last(ops), s);
      }
    } else {
      LengthsConcat(ops, [Insert(s)]);
      LengthsSingle(Insert(s));
      NormalSnoc(ops, Insert(s));
    }
  }

  /** Text appended to a trailing insert. */
  lemma GrowInsertFacts(init: seq<Op>, last: Op, s: seq<char>)
    requires last.Insert?
    ensures BaseOf(init + [Insert(last.s + s)]) == BaseOf(init + [last])
    ensures TargetOf(init + [Insert(last.s + s)]) == TargetOf(init + [last]) + |s|
    ensures Normal(init + [last]) && s != [] ==> Normal(init + [Insert(last.s + s)])
  {
    var grown := Insert(last.s + s);
    LengthsConcat(init, [last]);
    LengthsConcat(init, [grown]);
    LengthsSingle(last);
    LengthsSingle(grown);
    NormalSnoc(init, last);
    NormalSnoc(init, grown);
  }

  /** A new insert slotted in front of a trailing delete that has no insert before it. */
  lemma InsertBeforeDeleteFacts(init: seq<Op>, del: Op, s: seq<char>)
    requires del.Delete? && s != [] && (init != [] ==> !Last(init).Insert?)
    ensures BaseOf(init + [Insert(s), del]) == BaseOf(init + [del])
    ensures TargetOf(init + [Insert(s), del]) == TargetOf(init + [del]) + |s|
    ensures Normal(init + [del]) ==> Normal(init + [Insert(s), del])
  {
    var ins := Insert(s);
    SnocPair(init, ins, del);
    LengthsConcat(init, [del]);
    LengthsConcat(init, [ins]);
    LengthsConcat(init + [ins], [del]);
    LengthsSingle(del);
    LengthsSingle(ins);
    NormalSnoc(init, del);
    NormalSnoc(init, ins);
    NormalSnoc(init + [ins], del);
  }

  /** Text appended to the insert that sits just before a trailing delete. */
  lemma GrowInsertBeforeDeleteFacts(pre: seq<Op>, ins: Op, del: Op, s: seq<char>)
    requires ins.Insert? && del.Delete?
    ensures BaseOf(pre + [Insert(ins.s + s), del]) == BaseOf(pre + [ins] + [del])
    ensures TargetOf(pre + [Insert(ins.s + s), del]) == TargetOf(pre + [ins] + [del]) + |s|
    ensures Normal(pre + [ins] + [del]) && s != [] ==> Normal(pre + [Insert(ins.s + s), del])
  {
    var grown := Insert(ins.s + s);
    SnocPair(pre, grown, del);
    SnocLast(pre, ins);
    SnocLast(pre, grown);
    GrowInsertFacts(pre, ins, s);
    LengthsConcat(pre + [ins], [del]);
    LengthsConcat(pre + [grown], [del]);
    LengthsSingle(del);
    NormalSnoc(pre + [ins], del);
    NormalSnoc(pre + [grown], del);
  }

  /** `IsNoop` (sequence.go:111-120): it looks at the operation count only, so it relies on retains having been merged. */
  predicate IsNoop(q: Sequence): (r: bool)
    ensures r ==> forall i :: 0 <= i < |q.ops| ==> q.ops[i].Retain?
  {
    |q.ops| == 0 || (|q.ops| == 1 && q.ops[0].Retain?)
  }

  /**
    On a normalised sequence, `IsNoop` holds exactly when every operation is a
    retain: no insert and no delete is present.
   */
  lemma IsNoopIffOnlyRetains(q: Sequence)
    requires Normal(q.ops)
    ensures IsNoop(q) <==> forall i :: 0 <= i < |q.ops| ==> q.ops[i].Retain?
  {
    if |q.ops| >= 2 {
      assert MayFollow(q.ops[0], q.ops[1]);
      assert !q.ops[0].Retain? || !q.ops[1].Retain?;
    }
  }

  /** An `IsNoop` sequence leaves the length unchanged. */
  lemma IsNoopKeepsLength(q: Sequence)
    requires Valid(q) && IsNoop(q)
    ensures q.baseLen == q.targetLen
  {
    if |q.ops| == 1 {
      assert q.ops == [q.ops[0]];
      LengthsSingle(q.ops[0]);
    }
  }

  // ---------------------------------------------------------------------
  // The list edits case by case, each with the shape of the list it meets.
  // ---------------------------------------------------------------------

  lemma PushDeleteOnto(init: seq<Op>, del: Op, n: nat)
    requires del.Delete?
    ensures PushDelete(init + [del], n) == init + [Delete(del.n + n)]
  {
    SnocLast(init, del);
  }

  lemma PushDeleteAppend(ops: seq<Op>, n: nat)
    requires ops == [] || !Last(ops).Delete?
    ensures PushDelete(ops, n) == ops + [Delete(n)]
  {
  }

  lemma PushRetainOnto(init: seq<Op>, ret: Op, n: nat)
    requires ret.Retain?
    ensures PushRetain(init + [ret], n) == init + [Retain(ret.n + n)]
  {
    SnocLast(init, ret);
  }

  lemma PushRetainAppend(ops: seq<Op>, n: nat)
    requires ops == [] || !Last(ops).Retain?
    ensures PushRetain(ops, n) == ops + [Retain(n)]
  {
  }

  lemma PushInsertOnto(init: seq<Op>, ins: Op, s: seq<char>)
    requires ins.Insert?
    ensures PushInsert(init + [ins], s) == init + [Insert(ins.s + s)]
  {
    SnocLast(init, ins);
  }

  lemma PushInsertGrowBeforeDelete(pre: seq<Op>, ins: Op, del: Op, s: seq<char>)
    requires ins.Insert? && del.Delete?
    ensures PushInsert(pre + [ins] + [del], s) == pre + [Insert(ins.s + s), del]
  {
    SnocLast(pre + [ins], del);
    SnocLast(pre, ins);
  }

  lemma PushInsertBeforeDelete(init: seq<Op>, del: Op, s: seq<char>)
    requires del.Delete? && (init == [] || !Last(init).Insert?)
    ensures PushInsert(init + [del], s) == init + [Insert(s), del]
  {
    SnocLast(init, del);
  }

  lemma PushInsertAppend(ops: seq<Op>, s: seq<char>)
    requires ops == [] || Last(ops).Retain?
    ensures PushInsert(ops, s) == ops + [Insert(s)]
  {
  }

  // ---------------------------------------------------------------------
  // Chunking: the builders give the same value however an edit is split
  // into calls, and an insert and a delete at the same place commute.
  // ---------------------------------------------------------------------

  lemma RetainChunks(q: Sequence, a: nat, b: nat)
    ensures AddRetain(AddRetain(q, a), b) == AddRetain(q, a + b)
  {
    if a > 0 && b > 0 {
      PushRetainChunks(q.ops, a, b);
    }
  }

  lemma PushRetainChunks(ops: seq<Op>, a: nat, b: nat)
    ensures PushRetain(PushRetain(ops, a), b) == PushRetain(ops, a + b)
  {
    if ops != [] && Last(ops).Retain? {
      var init, ret := Init(ops), Last(ops);
      SplitLast(ops);
      PushRetainOnto(init, ret, a);
      PushRetainOnto(init, Retain(ret.n + a), b);
      PushRetainOnto(init, ret, a + b);
    } else {
      PushRetainAppend(ops, a);
      PushRetainOnto(ops, Retain(a), b);
      PushRetainAppend(ops, a + b);
    }
  }

  lemma DeleteChunks(q: Sequence, a: nat, b: nat)
    ensures AddDelete(AddDelete(q, a), b) == AddDelete(q, a + b)
  {
    if a > 0 && b > 0 {
      PushDeleteChunks(q.ops, a, b);
    }
  }

  lemma PushDeleteChunks(ops: seq<Op>, a: nat, b: nat)
    ensures PushDelete(PushDelete(ops, a), b) == PushDelete(ops, a + b)
  {
    if ops != [] && Last(ops).Delete? {
      var init, del := Init(ops), Last(ops);
      SplitLast(ops);
      PushDeleteOnto(init, del, a);
      PushDeleteOnto(init, Delete(del.n + a), b);
      PushDeleteOnto(init, del, a + b);
    } else {
      PushDeleteAppend(ops, a);
      PushDeleteOnto(ops, Delete(a), b);
      PushDeleteAppend(ops, a + b);
    }
  }

  lemma InsertChunks(q: Sequence, s: seq<char>, t: seq<char>)
    ensures AddInsert(AddInsert(q, s), t) == AddInsert(q, s + t)
  {
    if s == [] {
      EmptyConcat(t);
    } else if t == [] {
      EmptyConcat(s);
    } else {
      PushInsertChunks(q.ops, s, t);
    }
  }

  lemma PushInsertChunks(ops: seq<Op>, s: seq<char>, t: seq<char>)
    requires s != [] && t != []
    ensures PushInsert(PushInsert(ops, s), t) == PushInsert(ops, s + t)
  {
    if ops != [] && Last(ops).Insert? {
      var init, ins := Init(ops), Last(ops);
      SplitLast(ops);
      PushInsertOnto(init, ins, s);
      PushInsertOnto(init, Insert(ins.s + s), t);
      PushInsertOnto(init, ins, s + t);
      Assoc(ins.s, s, t);
    } else if ops != [] && Last(ops).Delete? {
      var init, del := Init(ops), Last(ops);
      SplitLast(ops);
      if init != [] && Last(init).Insert? {
        var pre, ins := Init(init), Last(init);
        SplitLast(init);
        PushInsertGrowBeforeDelete(pre, ins, del, s);
        SnocPair(pre, Insert(ins.s + s), del);
        PushInsertGrowBeforeDelete(pre, Insert(ins.s + s), del, t);
        PushInsertGrowBeforeDelete(pre, ins, del, s + t);
        Assoc(ins.s, s, t);
      } else {
        PushInsertBeforeDelete(init, del, s);
        SnocPair(init, Insert(s), del);
        PushInsertGrowBeforeDelete(init, Insert(s), del, t);
        PushInsertBeforeDelete(init, del, s + t);
      }
    } else {
      PushInsertAppend(ops, s);
      PushInsertOnto(ops, Insert(s), t);
      PushInsertAppend(ops, s + t);
    }
  }

  /**
    Deleting n characters and inserting s at the same place give the same
    sequence in either order: the builder always puts the insert first.
   */
  lemma InsertDeleteCommute(q: Sequence, s: seq<char>, n: nat)
    ensures AddInsert(AddDelete(q, n), s) == AddDelete(AddInsert(q, s), n)
  {
    if n > 0 && s != [] {
      PushInsertDeleteCommute(q.ops, s, n);
    }
  }

  lemma PushInsertDeleteCommute(ops: seq<Op>, s: seq<char>, n: nat)
    requires n > 0 && s != []
    ensures PushInsert(PushDelete(ops, n), s) == PushDelete(PushInsert(ops, s), n)
  {
    if ops != [] && Last(ops).Delete? {
      var init, del := Init(ops), Last(ops);
      var grown := Delete(del.n + n);
      SplitLast(ops);
      PushDeleteOnto(init, del, n);
      if init != [] && Last(init).Insert? {
        var pre, ins := Init(init), Last(init);
        SplitLast(init);
        PushInsertGrowBeforeDelete(pre, ins, grown, s);
        PushInsertGrowBeforeDelete(pre, ins, del, s);
        SnocPair(pre, Insert(ins.s + s), del);
        PushDeleteOnto(pre + [Insert(ins.s + s)], del, n);
        SnocPair(pre, Insert(ins.s + s), grown);
      } else {
        PushInsertBeforeDelete(init, grown, s);
        PushInsertBeforeDelete(init, del, s);
        SnocPair(init, Insert(s), del);
        PushDeleteOnto(init + [Insert(s)], del, n);
        SnocPair(init, Insert(s), grown);
      }
    } else if ops != [] && Last(ops).Insert? {
      var init, ins := Init(ops), Last(ops);
      SplitLast(ops);
      PushDeleteAppend(ops, n);
      PushInsertGrowBeforeDelete(init, ins, Delete(n), s);
      PushInsertOnto(init, ins, s);
      SnocLast(init, Insert(ins.s + s));
      PushDeleteAppend(init + [Insert(ins.s + s)], n);
      SnocPair(init, Insert(ins.s + s), Delete(n));
    } else {
      PushDeleteAppend(ops, n);
      PushInsertBeforeDelete(ops, Delete(n), s);
      PushInsertAppend(ops, s);
      SnocLast(ops, Insert(s));
      PushDeleteAppend(ops + [Insert(s)], n);
      SnocPair(ops, Insert(s), Delete(n));
    }
  }
}
