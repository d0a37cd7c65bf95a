/**
  Running a sequence against a document (`Apply`, sequence.go:85-109).

  The document is generic here: `Run` works on any `seq<T>`, given how an
  inserted character is written into it (`lift`). Text documents are the
  instance `T = char`, `lift = Id`; other instances (documents whose
  elements remember where they came from) are used to compare sequences
  structurally.
 */
module Documents {
  import opened Operations
  import opened Sequences
  import opened Results

  function Id(c: char): char { c }

  /** The text of an insert, written into a document of `T`s. */
  function Lift<T>(s: seq<char>, lift: char -> T): (r: seq<T>)
    ensures |r| == |s|
  {
    if s == [] then [] else [lift(s[0])] + Lift(s[1..], lift)
  }

  lemma {:induction false} LiftId(s: seq<char>)
    ensures Lift(s, Id) == s
  {
    if s != [] {
      LiftId(s[1..]);
      assert s == [s[0]] + s[1..];
    }
  }

  lemma {:induction false} LiftConcat<T>(s: seq<char>, t: seq<char>, lift: char -> T)
    ensures Lift(s + t, lift) == Lift(s, lift) + Lift(t, lift)
  {
    if s != [] {
      LiftConcat(s[1..], t, lift);
      assert (s + t)[0] == s[0] && (s + t)[1..] == s[1..] + t;
    } else {
      assert s + t == t;
    }
  }

  lemma {:induction false} LiftSlice<T>(s: seq<char>, k: nat, lift: char -> T)
    requires k <= |s|
    ensures Lift(s[..k], lift) == Lift(s, lift)[..k]
    ensures Lift(s[k..], lift) == Lift(s, lift)[k..]
  {
    assert s == s[..k] + s[k..];
    LiftConcat(s[..k], s[k..], lift);
  }

  /**
    What one operation writes, given the `Consumed(op)` characters it reads:
    a retain copies them, a delete skips them, an insert writes its text.
   */
  function Emit<T>(op: Op, w: seq<T>, lift: char -> T): seq<T>
    requires |w| == Consumed(op)
  {
    match op
    case Retain(_) => w
    case Insert(s) => Lift(s, lift)
    case Delete(_) => []
  }

  /**
    The output of an operation list on a document of exactly the length it
    reads: each operation in turn reads its share from the front and emits.
   */
  function Run<T>(ops: seq<Op>, d: seq<T>, lift: char -> T): (r: seq<T>)
    requires |d| == BaseOf(ops)
    ensures |r| == TargetOf(ops)
    decreases |ops|
  {
    if ops == [] then []
    else
      var c := Consumed(ops[0]);
      Emit(ops[0], d[..c], lift) + Run(ops[1..], d[c..], lift)
  }

  /** Unfolding `Run` once. */
  lemma RunUnfold<T>(ops: seq<Op>, d: seq<T>, lift: char -> T)
    requires ops != [] && |d| == BaseOf(ops)
    ensures Consumed(ops[0]) <= |d|
    ensures Run(ops, d, lift) == Emit(ops[0], d[..Consumed(ops[0])], lift) + Run(ops[1..], d[Consumed(ops[0])..], lift)
  {
  }

  // Small sequence identities, each proved on its own so that the lemmas
  // using them do not have to rediscover them.

  /** A non-empty list is its head in front of its tail, also under concatenation. */
  lemma ConsSplit(xs: seq<Op>, ys: seq<Op>)
    requires xs != []
    ensures xs == [xs[0]] + xs[1..]
    ensures xs + ys == [xs[0]] + (xs[1..] + ys)
  {
  }

  /** Splitting a document after its first c elements, also under concatenation. */
  lemma SplitAt<T>(u: seq<T>, v: seq<T>, c: nat)
    requires c <= |u|
    ensures u[..c] + u[c..] == u
    ensures u[..c] + (u[c..] + v) == u + v
  {
  }

  /** `Run` of a list with a known head, on a document split where the head stops reading. */
  lemma RunConsSplit<T>(x: Op, ops: seq<Op>, w: seq<T>, r: seq<T>, lift: char -> T)
    requires |w| == Consumed(x) && |r| == BaseOf(ops)
    ensures BaseOf([x] + ops) == |w + r|
    ensures Run([x] + ops, w + r, lift) == Emit(x, w, lift) + Run(ops, r, lift)
  {
    LengthsConcat([x], ops);
    LengthsSingle(x);
    assert ([x] + ops)[0] == x && ([x] + ops)[1..] == ops;
    assert (w + r)[..|w|] == w && (w + r)[|w|..] == r;
  }

  /**
    Running a concatenation of lists on a concatenation of their documents:
    each list runs on its own share and the outputs are concatenated.
   */
  lemma {:induction false} RunAppend<T>(xs: seq<Op>, ys: seq<Op>, u: seq<T>, v: seq<T>, lift: char -> T)
    requires |u| == BaseOf(xs) && |v| == BaseOf(ys)
    ensures BaseOf(xs + ys) == |u + v|
    ensures Run(xs + ys, u + v, lift) == Run(xs, u, lift) + Run(ys, v, lift)
    decreases |xs|
  {
    LengthsConcat(xs, ys);
    if xs == [] {
      EmptyConcat(ys);
      EmptyConcat(v);
    } else {
      var x, rest := xs[0], xs[1..];
      var c := Consumed(x);
      ConsSplit(xs, ys);
      LengthsConcat([x], rest);
      LengthsSingle(x);
      SplitAt(u, v, c);
      var w, u' := u[..c], u[c..];
      RunAppend(rest, ys, u', v, lift);
      RunConsSplit(x, rest + ys, w, u' + v, lift);
      RunConsSplit(x, rest, w, u', lift);
      Assoc(Emit(x, w, lift), Run(rest, u', lift), Run(ys, v, lift));
    }
  }

  /** `RunAppend` with the document given whole. */
  lemma RunConcat<T>(xs: seq<Op>, ys: seq<Op>, d: seq<T>, lift: char -> T)
    requires |d| == BaseOf(xs) + BaseOf(ys)
    ensures BaseOf(xs + ys) == |d|
    ensures Run(xs + ys, d, lift) == Run(xs, d[..BaseOf(xs)], lift) + Run(ys, d[BaseOf(xs)..], lift)
  {
    var b := BaseOf(xs);
    SplitAt(d, [], b);
    RunAppend(xs, ys, d[..b], d[b..], lift);
  }

  lemma RunSingle<T>(x: Op, w: seq<T>, lift: char -> T)
    requires |w| == Consumed(x)
    ensures BaseOf([x]) == |w|
    ensures Run([x], w, lift) == Emit(x, w, lift)
  {
    LengthsSingle(x);
    assert [x][1..] == [];
  }

  /** An operation list with one more operation at the end, on a split document. */
  lemma RunSnoc<T>(xs: seq<Op>, x: Op, u: seq<T>, w: seq<T>, lift: char -> T)
    requires |u| == BaseOf(xs) && |w| == Consumed(x)
    ensures BaseOf(xs + [x]) == |u + w|
    ensures Run(xs + [x], u + w, lift) == Run(xs, u, lift) + Emit(x, w, lift)
  {
    RunSingle(x, w, lift);
    RunAppend(xs, [x], u, w, lift);
  }

  /** A trailing insert writes its text after what the rest writes. */
  lemma RunSnocInsert<T>(xs: seq<Op>, t: seq<char>, u: seq<T>, lift: char -> T)
    requires |u| == BaseOf(xs)
    ensures BaseOf(xs + [Insert(t)]) == |u|
    ensures Run(xs + [Insert(t)], u, lift) == Run(xs, u, lift) + Lift(t, lift)
  {
    EmptyConcat(u);
    RunSnoc(xs, Insert(t), u, [], lift);
  }

  /** Runs `[Insert(s), Delete(m)]`: the text, and the m characters dropped. */
  lemma RunInsertDelete<T>(s: seq<char>, m: nat, v: seq<T>, lift: char -> T)
    requires |v| == m
    ensures BaseOf([Insert(s), Delete(m)]) == m
    ensures Run([Insert(s), Delete(m)], v, lift) == Lift(s, lift)
  {
    assert [Insert(s), Delete(m)] == [Insert(s)] + [Delete(m)];
    EmptyConcat(v);
    RunSingle(Delete(m), v, lift);
    RunConsSplit(Insert(s), [Delete(m)], [], v, lift);
  }

  /** An insert in front of a trailing delete writes its text after what the rest writes. */
  lemma RunInsertDeleteTail<T>(pre: seq<Op>, t: seq<char>, m: nat, u: seq<T>, v: seq<T>, lift: char -> T)
    requires |u| == BaseOf(pre) && |v| == m
    ensures BaseOf(pre + [Insert(t), Delete(m)]) == |u + v|
    ensures Run(pre + [Insert(t), Delete(m)], u + v, lift) == Run(pre, u, lift) + Lift(t, lift)
  {
    RunInsertDelete(t, m, v, lift);
    RunAppend(pre, [Insert(t), Delete(m)], u, v, lift);
  }

  // ---------------------------------------------------------------------
  // The builders do not change meaning: appending through them runs like
  // appending the bare operation. The document is split where the old
  // last operation starts reading.
  // ---------------------------------------------------------------------

  /** Growing a trailing retain by n copies n more characters. */
  lemma RunRetainGrow<T>(init: seq<Op>, last: Op, n: nat, u1: seq<T>, u2: seq<T>, w: seq<T>, lift: char -> T)
    requires last.Retain? && |u1| == BaseOf(init) && |u2| == last.n && |w| == n
    ensures BaseOf(init + [last]) == |u1 + u2|
    ensures BaseOf(init + [Retain(last.n + n)]) == |u1 + (u2 + w)|
    ensures Run(init + [Retain(last.n + n)], u1 + (u2 + w), lift) == Run(init + [last], u1 + u2, lift) + w
  {
    RunSnoc(init, Retain(last.n + n), u1, u2 + w, lift);
    RunSnoc(init, last, u1, u2, lift);
    Assoc(Run(init, u1, lift), u2, w);
  }

  /** Growing a trailing delete by n drops n more characters. */
  lemma RunDeleteGrow<T>(init: seq<Op>, last: Op, n: nat, u1: seq<T>, u2: seq<T>, w: seq<T>, lift: char -> T)
    requires last.Delete? && |u1| == BaseOf(init) && |u2| == last.n && |w| == n
    ensures BaseOf(init + [last]) == |u1 + u2|
    ensures BaseOf(init + [Delete(last.n + n)]) == |u1 + (u2 + w)|
    ensures Run(init + [Delete(last.n + n)], u1 + (u2 + w), lift) == Run(init + [last], u1 + u2, lift)
  {
    RunSnoc(init, Delete(last.n + n), u1, u2 + w, lift);
    RunSnoc(init, last, u1, u2, lift);
    EmptyConcat(Run(init, u1, lift));
  }

  /** Extending a trailing insert by s writes s after it. */
  lemma RunInsertGrow<T>(init: seq<Op>, p: seq<char>, s: seq<char>, u: seq<T>, lift: char -> T)
    requires |u| == BaseOf(init)
    ensures BaseOf(init + [Insert(p)]) == |u| && BaseOf(init + [Insert(p + s)]) == |u|
    ensures Run(init + [Insert(p + s)], u, lift) == Run(init + [Insert(p)], u, lift) + Lift(s, lift)
  {
    RunSnocInsert(init, p, u, lift);
    RunSnocInsert(init, p + s, u, lift);
    LiftConcat(p, s, lift);
    Assoc(Run(init, u, lift), Lift(p, lift), Lift(s, lift));
  }

  /** Extending the insert in front of a trailing delete by s writes s after it. */
  lemma RunInsertGrowBeforeDelete<T>(pre: seq<Op>, p: seq<char>, s: seq<char>, m: nat, u: seq<T>, v: seq<T>, lift: char -> T)
    requires |u| == BaseOf(pre) && |v| == m
    ensures BaseOf(pre + [Insert(p), Delete(m)]) == |u + v|
    ensures BaseOf(pre + [Insert(p + s), Delete(m)]) == |u + v|
    ensures Run(pre + [Insert(p + s), Delete(m)], u + v, lift) == Run(pre + [Insert(p), Delete(m)], u + v, lift) + Lift(s, lift)
  {
    RunInsertDeleteTail(pre, p, m, u, v, lift);
    RunInsertDeleteTail(pre, p + s, m, u, v, lift);
    LiftConcat(p, s, lift);
    Assoc(Run(pre, u, lift), Lift(p, lift), Lift(s, lift));
  }

  /** Slotting an insert in front of a trailing delete writes its text at the end. */
  lemma RunInsertBeforeDelete<T>(init: seq<Op>, s: seq<char>, m: nat, u: seq<T>, v: seq<T>, lift: char -> T)
    requires |u| == BaseOf(init) && |v| == m
    ensures BaseOf(init + [Delete(m)]) == |u + v|
    ensures BaseOf(init + [Insert(s), Delete(m)]) == |u + v|
    ensures Run(init + [Insert(s), Delete(m)], u + v, lift) == Run(init + [Delete(m)], u + v, lift) + Lift(s, lift)
  {
    RunInsertDeleteTail(init, s, m, u, v, lift);
    RunSnoc(init, Delete(m), u, v, lift);
    EmptyConcat(Run(init, u, lift));
  }

  /** The last operation of a non-empty list, split off together with its share of the document. */
  lemma SplitLastDoc<T>(ops: seq<Op>, u: seq<T>)
    requires ops != [] && |u| == BaseOf(ops)
    ensures ops == Init(ops) + [Last(ops)]
    ensures BaseOf(Init(ops)) + Consumed(Last(ops)) == |u|
  {
    SplitLast(ops);
    LengthsConcat(Init(ops), [Last(ops)]);
    LengthsSingle(Last(ops));
  }

  /** The merging case of `PushRetain`, on the list it rewrites. */
  lemma RunRetainMerge<T>(ops: seq<Op>, n: nat, u: seq<T>, w: seq<T>, lift: char -> T)
    requires ops != [] && Last(ops).Retain? && |u| == BaseOf(ops) && |w| == n
    ensures BaseOf(Init(ops) + [Retain(Last(ops).n + n)]) == |u + w|
    ensures Run(Init(ops) + [Retain(Last(ops).n + n)], u + w, lift) == Run(ops, u, lift) + w
  {
    var init := Init(ops);
    SplitLastDoc(ops, u);
    var b := BaseOf(init);
    SplitAt(u, w, b);
    RunRetainGrow(init, Last(ops), n, u[..b], u[b..], w, lift);
  }

  lemma RunPushRetain<T>(ops: seq<Op>, n: nat, u: seq<T>, w: seq<T>, lift: char -> T)
    requires n > 0 && |u| == BaseOf(ops) && |w| == n
    ensures BaseOf(PushRetain(ops, n)) == |u + w|
    ensures Run(PushRetain(ops, n), u + w, lift) == Run(ops, u, lift) + w
  {
    if ops != [] && Last(ops).Retain? {
      RunRetainMerge(ops, n, u, w, lift);
    } else {
      RunSnoc(ops, Retain(n), u, w, lift);
    }
  }

  /** The merging case of `PushDelete`, on the list it rewrites. */
  lemma RunDeleteMerge<T>(ops: seq<Op>, n: nat, u: seq<T>, w: seq<T>, lift: char -> T)
    requires ops != [] && Last(ops).Delete? && |u| == BaseOf(ops) && |w| == n
    ensures BaseOf(Init(ops) + [Delete(Last(ops).n + n)]) == |u + w|
    ensures Run(Init(ops) + [Delete(Last(ops).n + n)], u + w, lift) == Run(ops, u, lift)
  {
    var init := Init(ops);
    SplitLastDoc(ops, u);
    var b := BaseOf(init);
    SplitAt(u, w, b);
    RunDeleteGrow(init, Last(ops), n, u[..b], u[b..], w, lift);
  }

  lemma RunPushDelete<T>(ops: seq<Op>, n: nat, u: seq<T>, w: seq<T>, lift: char -> T)
    requires n > 0 && |u| == BaseOf(ops) && |w| == n
    ensures BaseOf(PushDelete(ops, n)) == |u + w|
    ensures Run(PushDelete(ops, n), u + w, lift) == Run(ops, u, lift)
  {
    if ops != [] && Last(ops).Delete? {
      RunDeleteMerge(ops, n, u, w, lift);
    } else {
      RunSnoc(ops, Delete(n), u, w, lift);
      EmptyConcat(Run(ops, u, lift));
    }
  }

  lemma RunPushInsert<T>(ops: seq<Op>, s: seq<char>, u: seq<T>, lift: char -> T)
    requires s != [] && |u| == BaseOf(ops)
    ensures BaseOf(PushInsert(ops, s)) == |u|
    ensures Run(PushInsert(ops, s), u, lift) == Run(ops, u, lift) + Lift(s, lift)
  {
    PushInsertFacts(ops, s);
    if ops != [] && Last(ops).Insert? {
      SplitLastDoc(ops, u);
      RunInsertGrow(Init(ops), Last(ops).s, s, u, lift);
    } else if ops != [] && Last(ops).Delete? {
      var init, m := Init(ops), Last(ops).n;
      SplitLastDoc(ops, u);
      var b := |u| - m;
      SplitAt(u, [], b);
      if init != [] && Last(init).Insert? {
        var pre, p := Init(init), Last(init).s;
        SplitLast(init);
        SnocPair(pre, Last(init), Last(ops));
        LengthsConcat(pre, [Last(init)]);
        LengthsSingle(Last(init));
        RunInsertGrowBeforeDelete(pre, p, s, m, u[..b], u[b..], lift);
      } else {
        RunInsertBeforeDelete(init, s, m, u[..b], u[b..], lift);
      }
    } else {
      RunSnocInsert(ops, s, u, lift);
    }
  }


  /** `Retain(n)` appends n copied characters to what the sequence writes. */
  lemma RetainRun<T>(q: Sequence, n: nat, u: seq<T>, w: seq<T>, lift: char -> T)
    requires |u| == BaseOf(q.ops) && |w| == n
    ensures Run(AddRetain(q, n).ops, u + w, lift) == Run(q.ops, u, lift) + w
  {
    if n == 0 {
      assert w == [];
      EmptyConcat(u);
      EmptyConcat(Run(q.ops, u, lift));
    } else {
      RunPushRetain(q.ops, n, u, w, lift);
    }
  }

  /** `Delete(n)` skips n more characters and writes nothing more. */
  lemma DeleteRun<T>(q: Sequence, n: nat, u: seq<T>, w: seq<T>, lift: char -> T)
    requires |u| == BaseOf(q.ops) && |w| == n
    ensures Run(AddDelete(q, n).ops, u + w, lift) == Run(q.ops, u, lift)
  {
    if n == 0 {
      assert w == [];
      EmptyConcat(u);
    } else {
      RunPushDelete(q.ops, n, u, w, lift);
    }
  }

  /**
    `Insert(s)` appends s to what the sequence writes, even when the builder
    places it in front of a trailing delete.
   */
  lemma InsertRun<T>(q: Sequence, s: seq<char>, u: seq<T>, lift: char -> T)
    requires |u| == BaseOf(q.ops)
    ensures Run(AddInsert(q, s).ops, u, lift) == Run(q.ops, u, lift) + Lift(s, lift)
  {
    if s == [] {
      EmptyConcat(Run(q.ops, u, lift));
    } else {
      RunPushInsert(q.ops, s, u, lift);
    }
  }

  // ---------------------------------------------------------------------
  // Reading a list from its head, whole or in part: what the loops of
  // Compose and Transform do when they advance an index or rewrite the
  // operation under it.
  // ---------------------------------------------------------------------

  /** The head operation reads the front w of the document, the rest reads y. */
  lemma RunHead<T>(ops: seq<Op>, w: seq<T>, y: seq<T>, lift: char -> T)
    requires ops != [] && |w| == Consumed(ops[0]) && |y| == BaseOf(ops[1..])
    ensures |w + y| == BaseOf(ops)
    ensures Run(ops, w + y, lift) == Emit(ops[0], w, lift) + Run(ops[1..], y, lift)
  {
    var c := |w|;
    assert (w + y)[..c] == w && (w + y)[c..] == y;
  }

  /** A retain at the head copies the front w of the document. */
  lemma RunRetainHead<T>(ops: seq<Op>, w: seq<T>, y: seq<T>, lift: char -> T)
    requires ops != [] && ops[0].Retain? && |w| == ops[0].n && |y| == BaseOf(ops[1..])
    ensures |w + y| == BaseOf(ops)
    ensures Run(ops, w + y, lift) == w + Run(ops[1..], y, lift)
  {
    RunHead(ops, w, y, lift);
  }

  /** A delete at the head skips the front w of the document. */
  lemma RunDeleteHead<T>(ops: seq<Op>, w: seq<T>, y: seq<T>, lift: char -> T)
    requires ops != [] && ops[0].Delete? && |w| == ops[0].n && |y| == BaseOf(ops[1..])
    ensures |w + y| == BaseOf(ops)
    ensures Run(ops, w + y, lift) == Run(ops[1..], y, lift)
  {
    RunHead(ops, w, y, lift);
    EmptyConcat(Run(ops[1..], y, lift));
  }

  /** An insert at the head writes its text and reads nothing. */
  lemma RunInsertHead<T>(ops: seq<Op>, y: seq<T>, lift: char -> T)
    requires ops != [] && ops[0].Insert? && |y| == BaseOf(ops[1..])
    ensures |y| == BaseOf(ops)
    ensures Run(ops, y, lift) == Lift(ops[0].s, lift) + Run(ops[1..], y, lift)
  {
    EmptyConcat(y);
    RunHead(ops, [], y, lift);
  }

  /** A retain's first a characters, and a list whose head is the rest of that retain. */
  lemma RunRetainRest<T>(ops: seq<Op>, rest: seq<Op>, a: nat, w: seq<T>, y: seq<T>, lift: char -> T)
    requires ops != [] && ops[0].Retain? && a < ops[0].n
    requires rest != [] && rest[0] == Retain(ops[0].n - a) && rest[1..] == ops[1..]
    requires |w| == a && |w + y| == BaseOf(ops)
    ensures |y| == BaseOf(rest) && TargetOf(rest) + a == TargetOf(ops)
    ensures Run(ops, w + y, lift) == w + Run(rest, y, lift)
  {
    var k := ops[0].n - a;
    SplitAt(y, [], k);
    Assoc(w, y[..k], y[k..]);
    RunRetainHead(ops, w + y[..k], y[k..], lift);
    RunRetainHead(rest, y[..k], y[k..], lift);
    Assoc(w, y[..k], Run(ops[1..], y[k..], lift));
  }

  /** A delete's first a characters, and a list whose head is the rest of that delete. */
  lemma RunDeleteRest<T>(ops: seq<Op>, rest: seq<Op>, a: nat, w: seq<T>, y: seq<T>, lift: char -> T)
    requires ops != [] && ops[0].Delete? && a < ops[0].n
    requires rest != [] && rest[0] == Delete(ops[0].n - a) && rest[1..] == ops[1..]
    requires |w| == a && |w + y| == BaseOf(ops)
    ensures |y| == BaseOf(rest) && TargetOf(rest) == TargetOf(ops)
    ensures Run(ops, w + y, lift) == Run(rest, y, lift)
  {
    var k := ops[0].n - a;
    SplitAt(y, [], k);
    Assoc(w, y[..k], y[k..]);
    RunDeleteHead(ops, w + y[..k], y[k..], lift);
    RunDeleteHead(rest, y[..k], y[k..], lift);
  }

  /** An insert's first a characters, and a list whose head is the rest of its text. */
  lemma RunInsertRest<T>(ops: seq<Op>, rest: seq<Op>, a: nat, y: seq<T>, lift: char -> T)
    requires ops != [] && ops[0].Insert? && a < |ops[0].s|
    requires rest != [] && rest[0] == Insert(ops[0].s[a..]) && rest[1..] == ops[1..]
    requires |y| == BaseOf(ops)
    ensures |y| == BaseOf(rest) && TargetOf(rest) + a == TargetOf(ops)
    ensures Run(ops, y, lift) == Lift(ops[0].s[..a], lift) + Run(rest, y, lift)
  {
    var s := ops[0].s;
    RunInsertHead(ops, y, lift);
    RunInsertHead(rest, y, lift);
    LiftSlice(s, a, lift);
    Assoc(Lift(s[..a], lift), Lift(s[a..], lift), Run(ops[1..], y, lift));
  }

  // ---------------------------------------------------------------------
  // Apply
  // ---------------------------------------------------------------------

  /**
    `Apply` (sequence.go:85-109) on a sequence whose counters agree with its
    operations: the document must have exactly `BaseLen` runes, and then the
    result has `TargetLen` runes.
   */
  function Apply(q: Sequence, s: seq<char>): (r: Result<seq<char>>)
    requires Valid(q)
    ensures r.Err? <==> |s| != q.baseLen
    ensures r.Ok? ==> |r.value| == q.targetLen
  {
    if |s| != q.baseLen then Err(IncompatibleLengths) else Ok(Run(q.ops, s, Id))
  }

  /** Before a turn of the loop of `ApplyText`: the next operation reads inside the document. */
  lemma ApplyBound(ops: seq<Op>, i: nat, s: seq<char>, pos: nat)
    requires i < |ops| && pos == BaseOf(ops[..i]) && |s| == BaseOf(ops)
    ensures pos + Consumed(ops[i]) <= |s|
  {
    PrefixSnoc(ops, i);
    LengthsConcat(ops[..i + 1], ops[i + 1..]);
  }

  /** After a turn of the loop of `ApplyText`: the prefix of the list has grown by one operation. */
  lemma ApplyStep(ops: seq<Op>, i: nat, s: seq<char>, prev: nat, pos: nat, before: seq<char>, piece: seq<char>)
    requires 0 < i <= |ops| && prev == BaseOf(ops[..i - 1]) && pos == prev + Consumed(ops[i - 1]) <= |s|
    requires before == Run(ops[..i - 1], s[..prev], Id)
    requires piece == Emit(ops[i - 1], s[prev..pos], Id)
    ensures pos == BaseOf(ops[..i])
    ensures before + piece == Run(ops[..i], s[..pos], Id)
  {
    PrefixSnoc(ops, i - 1);
    PrefixSplit(s, prev, pos);
    RunSnoc(ops[..i - 1], ops[i - 1], s[..prev], s[prev..pos], Id);
  }

  lemma PrefixSnoc(ops: seq<Op>, i: nat)
    requires i < |ops|
    ensures ops[..i + 1] == ops[..i] + [ops[i]]
    ensures ops[..i + 1] + ops[i + 1..] == ops
    ensures BaseOf(ops[..i + 1]) == BaseOf(ops[..i]) + Consumed(ops[i])
  {
    LengthsConcat(ops[..i], [ops[i]]);
    LengthsSingle(ops[i]);
  }

  lemma PrefixSplit<T>(s: seq<T>, pos: nat, next: nat)
    requires pos <= next <= |s|
    ensures s[..next] == s[..pos] + s[pos..next]
  {
  }

  /**
    The loop of sequence.go:90-108, with its rune cursor `pos`, computes the
    functional `Apply`.
   */
  method ApplyText(q: Sequence, s: seq<char>) returns (r: Result<seq<char>>)
    requires Valid(q)
    ensures r == Apply(q, s)
  {
    if |s| != q.baseLen {
      return Err(IncompatibleLengths);
    }
    var ops := q.ops;
    var result: seq<char> := [];
    var pos := 0;
    var i := 0;
    assert ops[..0] == [];
    while i < |ops|
      invariant 0 <= i <= |ops| && pos <= |s| && |s| == BaseOf(ops)
      invariant pos == BaseOf(ops[..i])
      invariant result == Run(ops[..i], s[..pos], Id)
    {
      ApplyBound(ops, i, s, pos);
      ghost var before, prev := result, pos;
      var piece: seq<char>, advance: nat;
      match ops[i] {
        case Retain(n) =>
          piece, advance := s[pos..pos + n], n;
        case Delete(n) =>
          piece, advance := [], n;
        case Insert(t) =>
          LiftId(t);
          piece, advance := t, 0;
      }
      assert advance == Consumed(ops[i]) && piece == Emit(ops[i], s[pos..pos + advance], Id);
      result, pos := result + piece, pos + advance;
      i := i + 1;
      ApplyStep(ops, i, s, prev, pos, before, piece);
    }
    assert ops[..i] == ops && s[..pos] == s;
    return Ok(result);
  }

  /** A no-op sequence gives back the document unchanged. */
  lemma IsNoopIsIdentity(q: Sequence, s: seq<char>)
    requires Valid(q) && IsNoop(q) && |s| == q.baseLen
    ensures Apply(q, s) == Ok(s)
  {
    if |q.ops| == 1 {
      assert q.ops == [q.ops[0]];
      LengthsSingle(q.ops[0]);
      RunSingle(q.ops[0], s, Id);
    }
  }
}
