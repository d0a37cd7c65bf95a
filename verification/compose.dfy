/**
  `Compose` (sequence.go:122-217): one sequence that does what `a` and then
  `b` do. The loop walks both operation lists at once; a turn either takes a
  delete of `a` or an insert of `b` as it is, or matches the head of `a`
  (what it writes) against the head of `b` (what it reads), emits the
  overlap and leaves the rest of the longer one in place.
 */
module Composition {
  import opened Operations
  import opened Sequences
  import opened Results
  import opened Documents

  /** Where one turn of the loop leaves the two remaining lists and the output. */
  datatype Turn = Done | Stuck | Next(ops1: seq<Op>, ops2: seq<Op>, out: Sequence)

  /**
    One turn of the loop (sequence.go:132-214). `Stuck` is the error return
    when one list ran out while the other still needs it (sequence.go:147-149).
   */
  function ComposeTurn(ops1: seq<Op>, ops2: seq<Op>, out: Sequence): (t: Turn)
    ensures t.Done? <==> ops1 == [] && ops2 == []
    ensures t.Next? ==> |t.ops1| + |t.ops2| < |ops1| + |ops2|
  {
    if ops1 == [] && ops2 == [] then Done
    else if ops1 != [] && ops1[0].Delete? then Next(ops1[1..], ops2, AddDelete(out, ops1[0].n))
    else if ops2 != [] && ops2[0].Insert? then Next(ops1, ops2[1..], AddInsert(out, ops2[0].s))
    else if ops1 == [] || ops2 == [] then Stuck
    else
      var x, y, r1, r2 := ops1[0], ops2[0], ops1[1..], ops2[1..];
      if x.Retain? && y.Retain? then
        if x.n < y.n then Next(r1, [Retain(y.n - x.n)] + r2, AddRetain(out, x.n))
        else if x.n == y.n then Next(r1, r2, AddRetain(out, x.n))
        else Next([Retain(x.n - y.n)] + r1, r2, AddRetain(out, y.n))
      else if x.Retain? then
        if x.n < y.n then Next(r1, [Delete(y.n - x.n)] + r2, AddDelete(out, x.n))
        else if x.n == y.n then Next(r1, r2, AddDelete(out, y.n))
        else Next([Retain(x.n - y.n)] + r1, r2, AddDelete(out, y.n))
      else if y.Delete? then
        if |x.s| < y.n then Next(r1, [Delete(y.n - |x.s|)] + r2, out)
        else if |x.s| == y.n then Next(r1, r2, out)
        else Next([Insert(x.s[y.n..])] + r1, r2, out)
      else
        if |x.s| < y.n then Next(r1, [Retain(y.n - |x.s|)] + r2, AddInsert(out, x.s))
        else if |x.s| == y.n then Next(r1, r2, AddInsert(out, x.s))
        else Next([Insert(x.s[y.n..])] + r1, r2, AddInsert(out, x.s[..y.n]))
  }

  /** The loop of `Compose`, from the given remaining lists and output so far. */
  function ComposeLoop(ops1: seq<Op>, ops2: seq<Op>, out: Sequence): (r: Result<Sequence>)
    decreases |ops1| + |ops2|
  {
    match ComposeTurn(ops1, ops2, out)
    case Done => Ok(out)
    case Stuck => Err(IncompatibleLengths)
    case Next(o1, o2, o) => ComposeLoop(o1, o2, o)
  }

  /**
    `Compose` checks the counters, then runs the loop on the two lists from an
    empty output. The result is always in normal form and its counters agree
    with its operations.
   */
  function Compose(a: Sequence, b: Sequence): (r: Result<Sequence>)
    ensures a.targetLen != b.baseLen ==> r == Err(IncompatibleLengths)
    ensures r.Ok? ==> Valid(r.value) && Normal(r.value.ops)
    ensures r.Ok? ==> r.value.baseLen == BaseOf(a.ops) && r.value.targetLen == TargetOf(b.ops)
    ensures r.Ok? && Valid(a) && Valid(b) ==> r.value.baseLen == a.baseLen && r.value.targetLen == b.targetLen
    ensures r.Ok? ==> TargetOf(a.ops) == BaseOf(b.ops)
  {
    if a.targetLen != b.baseLen then Err(IncompatibleLengths)
    else
      var r := ComposeLoop(a.ops, b.ops, NewSequence());
      if r.Ok? then ComposeLoopShape(a.ops, b.ops, NewSequence()); r else r
  }

  // ---------------------------------------------------------------------
  // Lengths and normal form
  // ---------------------------------------------------------------------

  /**
    A turn moves characters between what is left to read and what is
    already emitted, never creating or losing any.
   */
  lemma TurnLengths(ops1: seq<Op>, ops2: seq<Op>, out: Sequence)
    requires ComposeTurn(ops1, ops2, out).Next?
    ensures var t := ComposeTurn(ops1, ops2, out);
      && BaseOf(t.out.ops) + BaseOf(t.ops1) == BaseOf(out.ops) + BaseOf(ops1)
      && TargetOf(t.out.ops) + TargetOf(t.ops2) == TargetOf(out.ops) + TargetOf(ops2)
      && TargetOf(t.ops1) + BaseOf(ops2) == TargetOf(ops1) + BaseOf(t.ops2)
  {
    if !(ops1 != [] && ops1[0].Delete?) && !(ops2 != [] && ops2[0].Insert?) && ops1 != [] && ops2 != [] {
      MatchedLengths(ops1, ops2, out);
    }
  }

  /** The same for a turn that matches the two heads against each other. */
  lemma MatchedLengths(ops1: seq<Op>, ops2: seq<Op>, out: Sequence)
    requires ops1 != [] && ops2 != [] && !ops1[0].Delete? && !ops2[0].Insert?
    ensures var t := ComposeTurn(ops1, ops2, out);
      && t.Next?
      && BaseOf(t.out.ops) + BaseOf(t.ops1) == BaseOf(out.ops) + BaseOf(ops1)
      && TargetOf(t.out.ops) + TargetOf(t.ops2) == TargetOf(out.ops) + TargetOf(ops2)
      && TargetOf(t.ops1) + BaseOf(ops2) == TargetOf(ops1) + BaseOf(t.ops2)
  {
    var x, y, r1, r2 := ops1[0], ops2[0], ops1[1..], ops2[1..];
    var k := Produced(x);
    if k < y.n {
      var rest := if y.Retain? then Retain(y.n - k) else Delete(y.n - k);
      LengthsCons(rest, r2);
    } else if k > y.n {
      var rest := if x.Retain? then Retain(k - y.n) else Insert(x.s[y.n..]);
      LengthsCons(rest, r1);
    }
  }

  /** The output of a turn stays valid and in normal form. */
  lemma TurnKeepsForm(ops1: seq<Op>, ops2: seq<Op>, out: Sequence)
    requires ComposeTurn(ops1, ops2, out).Next?
    ensures var t := ComposeTurn(ops1, ops2, out);
      && (Valid(out) ==> Valid(t.out))
      && (Normal(out.ops) ==> Normal(t.out.ops))
  {
  }

  /** A turn leaves no zero-length operation behind in the remaining lists. */
  lemma TurnKeepsNonEmpty(ops1: seq<Op>, ops2: seq<Op>, out: Sequence)
    requires ComposeTurn(ops1, ops2, out).Next?
    requires NonEmptyOps(ops1) && NonEmptyOps(ops2)
    ensures var t := ComposeTurn(ops1, ops2, out); NonEmptyOps(t.ops1) && NonEmptyOps(t.ops2)
  {
    if ops1 != [] && ops1[0].Delete? {
    } else if ops2 != [] && ops2[0].Insert? {
    } else {
      var x, y, r1, r2 := ops1[0], ops2[0], ops1[1..], ops2[1..];
      var k := Produced(x);
      if k < y.n {
        var rest := if y.Retain? then Retain(y.n - k) else Delete(y.n - k);
        NonEmptyCons(rest, r2);
      } else if k > y.n {
        var rest := if x.Retain? then Retain(k - y.n) else Insert(x.s[y.n..]);
        NonEmptyCons(rest, r1);
      }
    }
  }

  /**
    What the loop returns, when it succeeds: the lists had matching lengths,
    and the output grew by what the first list reads and the second writes.
   */
  lemma {:induction false} ComposeLoopShape(ops1: seq<Op>, ops2: seq<Op>, out: Sequence)
    requires ComposeLoop(ops1, ops2, out).Ok?
    ensures var r := ComposeLoop(ops1, ops2, out).value;
      && TargetOf(ops1) == BaseOf(ops2)
      && BaseOf(r.ops) == BaseOf(out.ops) + BaseOf(ops1)
      && TargetOf(r.ops) == TargetOf(out.ops) + TargetOf(ops2)
      && (Valid(out) ==> Valid(r))
      && (Normal(out.ops) ==> Normal(r.ops))
    decreases |ops1| + |ops2|
  {
    var t := ComposeTurn(ops1, ops2, out);
    if t.Next? {
      TurnLengths(ops1, ops2, out);
      TurnKeepsForm(ops1, ops2, out);
      ComposeLoopShape(t.ops1, t.ops2, t.out);
    }
  }

  /** With no zero-length operation in either list, a turn gets stuck only on lists of different lengths. */
  lemma StuckMeansMismatch(ops1: seq<Op>, ops2: seq<Op>, out: Sequence)
    requires ComposeTurn(ops1, ops2, out).Stuck?
    requires NonEmptyOps(ops1) && NonEmptyOps(ops2)
    ensures TargetOf(ops1) != BaseOf(ops2)
  {
    if ops1 == [] {
      assert Consumed(ops2[0]) > 0;
    } else {
      assert Produced(ops1[0]) > 0;
    }
  }

  /** The loop succeeds on lists of matching lengths without zero-length operations. */
  lemma {:induction false} ComposeLoopSucceeds(ops1: seq<Op>, ops2: seq<Op>, out: Sequence)
    requires TargetOf(ops1) == BaseOf(ops2)
    requires NonEmptyOps(ops1) && NonEmptyOps(ops2)
    ensures ComposeLoop(ops1, ops2, out).Ok?
    decreases |ops1| + |ops2|
  {
    var t := ComposeTurn(ops1, ops2, out);
    if t.Stuck? {
      StuckMeansMismatch(ops1, ops2, out);
    } else if t.Next? {
      TurnLengths(ops1, ops2, out);
      TurnKeepsNonEmpty(ops1, ops2, out);
      ComposeLoopSucceeds(t.ops1, t.ops2, t.out);
    }
  }

  // ---------------------------------------------------------------------
  // Meaning: the composite does what the first list and then the second do
  // ---------------------------------------------------------------------

  /** How many characters of the original document a turn reads. */
  function Reads(ops1: seq<Op>, ops2: seq<Op>): (c: nat)
    ensures c <= BaseOf(ops1)
  {
    if ops1 != [] && ops1[0].Delete? then ops1[0].n
    else if ops2 != [] && ops2[0].Insert? then 0
    else if ops1 != [] && ops2 != [] && ops1[0].Retain? then
      if ops1[0].n <= ops2[0].n then ops1[0].n else ops2[0].n
    else 0
  }

  /**
    The lengths a state of the loop must have for its meaning to be defined:
    the output so far has read u, the first list reads d, and the second
    list reads what the first writes.
   */
  ghost predicate Fits(ops1: seq<Op>, ops2: seq<Op>, out: Sequence, ulen: nat, dlen: nat) {
    ulen == BaseOf(out.ops) && dlen == BaseOf(ops1) && TargetOf(ops1) == BaseOf(ops2)
  }

  /**
    The meaning of a state of the loop on a document u + d: what the output
    so far writes from u, followed by what the second list writes from what
    the first list writes from d.
   */
  function Meaning<T>(ops1: seq<Op>, ops2: seq<Op>, out: Sequence, u: seq<T>, d: seq<T>, lift: char -> T): seq<T>
    requires Fits(ops1, ops2, out, |u|, |d|)
  {
    Run(out.ops, u, lift) + Run(ops2, Run(ops1, d, lift), lift)
  }

  /**
    A turn that replaces the state (ops1, ops2, out) on u + d1 + d2 by
    (o1, o2, o) on (u + d1) + d2 keeps the lengths fitting and the meaning
    unchanged.
   */
  ghost predicate Keeps<T>(ops1: seq<Op>, ops2: seq<Op>, out: Sequence, o1: seq<Op>, o2: seq<Op>, o: Sequence,
                           u: seq<T>, d1: seq<T>, d2: seq<T>, lift: char -> T)
    requires Fits(ops1, ops2, out, |u|, |d1 + d2|)
  {
    && Fits(o1, o2, o, |u + d1|, |d2|)
    && Meaning(o1, o2, o, u + d1, d2, lift) == Meaning(ops1, ops2, out, u, d1 + d2, lift)
  }

  /**
    A turn keeps the meaning when the output gains some e from reading d1,
    and the remaining lists write e followed by what their successors write.
   */
  lemma KeepsBy<T>(ops1: seq<Op>, ops2: seq<Op>, out: Sequence, o1: seq<Op>, o2: seq<Op>, o: Sequence,
                   u: seq<T>, d1: seq<T>, d2: seq<T>, e: seq<T>, lift: char -> T)
    requires Fits(ops1, ops2, out, |u|, |d1 + d2|) && Fits(o1, o2, o, |u + d1|, |d2|)
    requires Run(o.ops, u + d1, lift) == Run(out.ops, u, lift) + e
    requires Run(ops2, Run(ops1, d1 + d2, lift), lift) == e + Run(o2, Run(o1, d2, lift), lift)
    ensures Keeps(ops1, ops2, out, o1, o2, o, u, d1, d2, lift)
  {
    Assoc(Run(out.ops, u, lift), e, Run(o2, Run(o1, d2, lift), lift));
  }

  /** A delete of the first list goes straight to the output. */
  lemma DeleteFirstKeeps<T>(ops1: seq<Op>, ops2: seq<Op>, out: Sequence, u: seq<T>, d1: seq<T>, d2: seq<T>, lift: char -> T)
    requires ops1 != [] && ops1[0].Delete? && |d1| == ops1[0].n
    requires Fits(ops1, ops2, out, |u|, |d1 + d2|)
    ensures Keeps(ops1, ops2, out, ops1[1..], ops2, AddDelete(out, ops1[0].n), u, d1, d2, lift)
  {
    DeleteFirstWrites(ops1, ops2, d1, d2, lift);
    DeleteRun(out, ops1[0].n, u, d1, lift);
    EmptyConcat(Run(out.ops, u, lift));
    KeepsBy(ops1, ops2, out, ops1[1..], ops2, AddDelete(out, ops1[0].n), u, d1, d2, [], lift);
  }

  lemma DeleteFirstWrites<T>(ops1: seq<Op>, ops2: seq<Op>, d1: seq<T>, d2: seq<T>, lift: char -> T)
    requires ops1 != [] && ops1[0].Delete? && |d1| == ops1[0].n
    requires |d1 + d2| == BaseOf(ops1) && TargetOf(ops1) == BaseOf(ops2)
    ensures |d2| == BaseOf(ops1[1..]) && TargetOf(ops1[1..]) == BaseOf(ops2)
    ensures Run(ops2, Run(ops1, d1 + d2, lift), lift) == [] + Run(ops2, Run(ops1[1..], d2, lift), lift)
  {
    RunDeleteHead(ops1, d1, d2, lift);
    EmptyConcat(Run(ops2, Run(ops1[1..], d2, lift), lift));
  }

  /** An insert of the second list goes straight to the output. */
  lemma InsertSecondKeeps<T>(ops1: seq<Op>, ops2: seq<Op>, out: Sequence, u: seq<T>, d1: seq<T>, d2: seq<T>, lift: char -> T)
    requires ops2 != [] && ops2[0].Insert? && d1 == []
    requires Fits(ops1, ops2, out, |u|, |d1 + d2|)
    ensures Keeps(ops1, ops2, out, ops1, ops2[1..], AddInsert(out, ops2[0].s), u, d1, d2, lift)
  {
    InsertSecondWrites(ops1, ops2, d1, d2, lift);
    EmptyConcat(u);
    InsertRun(out, ops2[0].s, u, lift);
    KeepsBy(ops1, ops2, out, ops1, ops2[1..], AddInsert(out, ops2[0].s), u, d1, d2, Lift(ops2[0].s, lift), lift);
  }

  lemma InsertSecondWrites<T>(ops1: seq<Op>, ops2: seq<Op>, d1: seq<T>, d2: seq<T>, lift: char -> T)
    requires ops2 != [] && ops2[0].Insert? && d1 == []
    requires |d1 + d2| == BaseOf(ops1) && TargetOf(ops1) == BaseOf(ops2)
    ensures |d2| == BaseOf(ops1) && TargetOf(ops1) == BaseOf(ops2[1..])
    ensures Run(ops2, Run(ops1, d1 + d2, lift), lift) == Lift(ops2[0].s, lift) + Run(ops2[1..], Run(ops1, d2, lift), lift)
  {
    EmptyConcat(d2);
    RunInsertHead(ops2, Run(ops1, d2, lift), lift);
  }

  /** A retain against a longer retain: it is retained, the rest of the longer one stays. */
  lemma RetainShorterRetainKeeps<T>(ops1: seq<Op>, ops2: seq<Op>, out: Sequence, u: seq<T>, d1: seq<T>, d2: seq<T>, lift: char -> T)
    requires ops1 != [] && ops2 != [] && ops1[0].Retain? && ops2[0].Retain? && ops1[0].n < ops2[0].n && |d1| == ops1[0].n
    requires Fits(ops1, ops2, out, |u|, |d1 + d2|)
    ensures Keeps(ops1, ops2, out, ops1[1..], [Retain(ops2[0].n - ops1[0].n)] + ops2[1..], AddRetain(out, ops1[0].n), u, d1, d2, lift)
  {
    ConsParts(Retain(ops2[0].n - ops1[0].n), ops2[1..]);
    RetainShorterRetainWrites(ops1, ops2, [Retain(ops2[0].n - ops1[0].n)] + ops2[1..], d1, d2, lift);
    RetainRun(out, ops1[0].n, u, d1, lift);
    KeepsBy(ops1, ops2, out, ops1[1..], [Retain(ops2[0].n - ops1[0].n)] + ops2[1..], AddRetain(out, ops1[0].n), u, d1, d2, d1, lift);
  }

  lemma RetainShorterRetainWrites<T>(ops1: seq<Op>, ops2: seq<Op>, o2: seq<Op>, d1: seq<T>, d2: seq<T>, lift: char -> T)
    requires ops1 != [] && ops2 != [] && ops1[0].Retain? && ops2[0].Retain? && ops1[0].n < ops2[0].n && |d1| == ops1[0].n
    requires o2 != [] && o2[0] == Retain(ops2[0].n - ops1[0].n) && o2[1..] == ops2[1..]
    requires |d1 + d2| == BaseOf(ops1) && TargetOf(ops1) == BaseOf(ops2)
    ensures |d2| == BaseOf(ops1[1..]) && TargetOf(ops1[1..]) == BaseOf(o2)
    ensures Run(ops2, Run(ops1, d1 + d2, lift), lift) == d1 + Run(o2, Run(ops1[1..], d2, lift), lift)
  {
    RunRetainHead(ops1, d1, d2, lift);
    RunRetainRest(ops2, o2, ops1[0].n, d1, Run(ops1[1..], d2, lift), lift);
  }

  /** Two retains of the same length: it is retained. */
  lemma RetainEqualRetainKeeps<T>(ops1: seq<Op>, ops2: seq<Op>, out: Sequence, u: seq<T>, d1: seq<T>, d2: seq<T>, lift: char -> T)
    requires ops1 != [] && ops2 != [] && ops1[0].Retain? && ops2[0].Retain? && ops1[0].n == ops2[0].n && |d1| == ops1[0].n
    requires Fits(ops1, ops2, out, |u|, |d1 + d2|)
    ensures Keeps(ops1, ops2, out, ops1[1..], ops2[1..], AddRetain(out, ops1[0].n), u, d1, d2, lift)
  {
    RetainEqualRetainWrites(ops1, ops2, d1, d2, lift);
    RetainRun(out, ops1[0].n, u, d1, lift);
    KeepsBy(ops1, ops2, out, ops1[1..], ops2[1..], AddRetain(out, ops1[0].n), u, d1, d2, d1, lift);
  }

  lemma RetainEqualRetainWrites<T>(ops1: seq<Op>, ops2: seq<Op>, d1: seq<T>, d2: seq<T>, lift: char -> T)
    requires ops1 != [] && ops2 != [] && ops1[0].Retain? && ops2[0].Retain? && ops1[0].n == ops2[0].n && |d1| == ops1[0].n
    requires |d1 + d2| == BaseOf(ops1) && TargetOf(ops1) == BaseOf(ops2)
    ensures |d2| == BaseOf(ops1[1..]) && TargetOf(ops1[1..]) == BaseOf(ops2[1..])
    ensures Run(ops2, Run(ops1, d1 + d2, lift), lift) == d1 + Run(ops2[1..], Run(ops1[1..], d2, lift), lift)
  {
    RunRetainHead(ops1, d1, d2, lift);
    RunRetainHead(ops2, d1, Run(ops1[1..], d2, lift), lift);
  }

  /** A retain against a shorter retain: the overlap is retained, the rest of the first stays. */
  lemma RetainLongerRetainKeeps<T>(ops1: seq<Op>, ops2: seq<Op>, out: Sequence, u: seq<T>, d1: seq<T>, d2: seq<T>, lift: char -> T)
    requires ops1 != [] && ops2 != [] && ops1[0].Retain? && ops2[0].Retain? && ops1[0].n > ops2[0].n && |d1| == ops2[0].n
    requires Fits(ops1, ops2, out, |u|, |d1 + d2|)
    ensures Keeps(ops1, ops2, out, [Retain(ops1[0].n - ops2[0].n)] + ops1[1..], ops2[1..], AddRetain(out, ops2[0].n), u, d1, d2, lift)
  {
    ConsParts(Retain(ops1[0].n - ops2[0].n), ops1[1..]);
    RetainLongerRetainWrites(ops1, ops2, [Retain(ops1[0].n - ops2[0].n)] + ops1[1..], d1, d2, lift);
    RetainRun(out, ops2[0].n, u, d1, lift);
    KeepsBy(ops1, ops2, out, [Retain(ops1[0].n - ops2[0].n)] + ops1[1..], ops2[1..], AddRetain(out, ops2[0].n), u, d1, d2, d1, lift);
  }

  lemma RetainLongerRetainWrites<T>(ops1: seq<Op>, ops2: seq<Op>, o1: seq<Op>, d1: seq<T>, d2: seq<T>, lift: char -> T)
    requires ops1 != [] && ops2 != [] && ops1[0].Retain? && ops2[0].Retain? && ops1[0].n > ops2[0].n && |d1| == ops2[0].n
    requires o1 != [] && o1[0] == Retain(ops1[0].n - ops2[0].n) && o1[1..] == ops1[1..]
    requires |d1 + d2| == BaseOf(ops1) && TargetOf(ops1) == BaseOf(ops2)
    ensures |d2| == BaseOf(o1) && TargetOf(o1) == BaseOf(ops2[1..])
    ensures Run(ops2, Run(ops1, d1 + d2, lift), lift) == d1 + Run(ops2[1..], Run(o1, d2, lift), lift)
  {
    RunRetainRest(ops1, o1, ops2[0].n, d1, d2, lift);
    RunRetainHead(ops2, d1, Run(o1, d2, lift), lift);
  }

  /** A retain against a longer delete: it is deleted, the rest of the delete stays. */
  lemma RetainShorterDeleteKeeps<T>(ops1: seq<Op>, ops2: seq<Op>, out: Sequence, u: seq<T>, d1: seq<T>, d2: seq<T>, lift: char -> T)
    requires ops1 != [] && ops2 != [] && ops1[0].Retain? && ops2[0].Delete? && ops1[0].n < ops2[0].n && |d1| == ops1[0].n
    requires Fits(ops1, ops2, out, |u|, |d1 + d2|)
    ensures Keeps(ops1, ops2, out, ops1[1..], [Delete(ops2[0].n - ops1[0].n)] + ops2[1..], AddDelete(out, ops1[0].n), u, d1, d2, lift)
  {
    ConsParts(Delete(ops2[0].n - ops1[0].n), ops2[1..]);
    RetainShorterDeleteWrites(ops1, ops2, [Delete(ops2[0].n - ops1[0].n)] + ops2[1..], d1, d2, lift);
    DeleteRun(out, ops1[0].n, u, d1, lift);
    EmptyConcat(Run(out.ops, u, lift));
    KeepsBy(ops1, ops2, out, ops1[1..], [Delete(ops2[0].n - ops1[0].n)] + ops2[1..], AddDelete(out, ops1[0].n), u, d1, d2, [], lift);
  }

  lemma RetainShorterDeleteWrites<T>(ops1: seq<Op>, ops2: seq<Op>, o2: seq<Op>, d1: seq<T>, d2: seq<T>, lift: char -> T)
    requires ops1 != [] && ops2 != [] && ops1[0].Retain? && ops2[0].Delete? && ops1[0].n < ops2[0].n && |d1| == ops1[0].n
    requires o2 != [] && o2[0] == Delete(ops2[0].n - ops1[0].n) && o2[1..] == ops2[1..]
    requires |d1 + d2| == BaseOf(ops1) && TargetOf(ops1) == BaseOf(ops2)
    ensures |d2| == BaseOf(ops1[1..]) && TargetOf(ops1[1..]) == BaseOf(o2)
    ensures Run(ops2, Run(ops1, d1 + d2, lift), lift) == [] + Run(o2, Run(ops1[1..], d2, lift), lift)
  {
    RunRetainHead(ops1, d1, d2, lift);
    RunDeleteRest(ops2, o2, ops1[0].n, d1, Run(ops1[1..], d2, lift), lift);
    EmptyConcat(Run(o2, Run(ops1[1..], d2, lift), lift));
  }

  /** A retain against a delete of the same length: it is deleted. */
  lemma RetainEqualDeleteKeeps<T>(ops1: seq<Op>, ops2: seq<Op>, out: Sequence, u: seq<T>, d1: seq<T>, d2: seq<T>, lift: char -> T)
    requires ops1 != [] && ops2 != [] && ops1[0].Retain? && ops2[0].Delete? && ops1[0].n == ops2[0].n && |d1| == ops1[0].n
    requires Fits(ops1, ops2, out, |u|, |d1 + d2|)
    ensures Keeps(ops1, ops2, out, ops1[1..], ops2[1..], AddDelete(out, ops2[0].n), u, d1, d2, lift)
  {
    RetainEqualDeleteWrites(ops1, ops2, d1, d2, lift);
    DeleteRun(out, ops2[0].n, u, d1, lift);
    EmptyConcat(Run(out.ops, u, lift));
    KeepsBy(ops1, ops2, out, ops1[1..], ops2[1..], AddDelete(out, ops2[0].n), u, d1, d2, [], lift);
  }

  lemma RetainEqualDeleteWrites<T>(ops1: seq<Op>, ops2: seq<Op>, d1: seq<T>, d2: seq<T>, lift: char -> T)
    requires ops1 != [] && ops2 != [] && ops1[0].Retain? && ops2[0].Delete? && ops1[0].n == ops2[0].n && |d1| == ops1[0].n
    requires |d1 + d2| == BaseOf(ops1) && TargetOf(ops1) == BaseOf(ops2)
    ensures |d2| == BaseOf(ops1[1..]) && TargetOf(ops1[1..]) == BaseOf(ops2[1..])
    ensures Run(ops2, Run(ops1, d1 + d2, lift), lift) == [] + Run(ops2[1..], Run(ops1[1..], d2, lift), lift)
  {
    RunRetainHead(ops1, d1, d2, lift);
    RunDeleteHead(ops2, d1, Run(ops1[1..], d2, lift), lift);
    EmptyConcat(Run(ops2[1..], Run(ops1[1..], d2, lift), lift));
  }

  /** A retain against a shorter delete: the overlap is deleted, the rest of the retain stays. */
  lemma RetainLongerDeleteKeeps<T>(ops1: seq<Op>, ops2: seq<Op>, out: Sequence, u: seq<T>, d1: seq<T>, d2: seq<T>, lift: char -> T)
    requires ops1 != [] && ops2 != [] && ops1[0].Retain? && ops2[0].Delete? && ops1[0].n > ops2[0].n && |d1| == ops2[0].n
    requires Fits(ops1, ops2, out, |u|, |d1 + d2|)
    ensures Keeps(ops1, ops2, out, [Retain(ops1[0].n - ops2[0].n)] + ops1[1..], ops2[1..], AddDelete(out, ops2[0].n), u, d1, d2, lift)
  {
    ConsParts(Retain(ops1[0].n - ops2[0].n), ops1[1..]);
    RetainLongerDeleteWrites(ops1, ops2, [Retain(ops1[0].n - ops2[0].n)] + ops1[1..], d1, d2, lift);
    DeleteRun(out, ops2[0].n, u, d1, lift);
    EmptyConcat(Run(out.ops, u, lift));
    KeepsBy(ops1, ops2, out, [Retain(ops1[0].n - ops2[0].n)] + ops1[1..], ops2[1..], AddDelete(out, ops2[0].n), u, d1, d2, [], lift);
  }

  lemma RetainLongerDeleteWrites<T>(ops1: seq<Op>, ops2: seq<Op>, o1: seq<Op>, d1: seq<T>, d2: seq<T>, lift: char -> T)
    requires ops1 != [] && ops2 != [] && ops1[0].Retain? && ops2[0].Delete? && ops1[0].n > ops2[0].n && |d1| == ops2[0].n
    requires o1 != [] && o1[0] == Retain(ops1[0].n - ops2[0].n) && o1[1..] == ops1[1..]
    requires |d1 + d2| == BaseOf(ops1) && TargetOf(ops1) == BaseOf(ops2)
    ensures |d2| == BaseOf(o1) && TargetOf(o1) == BaseOf(ops2[1..])
    ensures Run(ops2, Run(ops1, d1 + d2, lift), lift) == [] + Run(ops2[1..], Run(o1, d2, lift), lift)
  {
    RunRetainRest(ops1, o1, ops2[0].n, d1, d2, lift);
    RunDeleteHead(ops2, d1, Run(o1, d2, lift), lift);
    EmptyConcat(Run(ops2[1..], Run(o1, d2, lift), lift));
  }

  /** An insert against a longer delete: the text vanishes, the rest of the delete stays. */
  lemma InsertShorterDeleteKeeps<T>(ops1: seq<Op>, ops2: seq<Op>, out: Sequence, u: seq<T>, d1: seq<T>, d2: seq<T>, lift: char -> T)
    requires ops1 != [] && ops2 != [] && ops1[0].Insert? && ops2[0].Delete? && |ops1[0].s| < ops2[0].n && d1 == []
    requires Fits(ops1, ops2, out, |u|, |d1 + d2|)
    ensures Keeps(ops1, ops2, out, ops1[1..], [Delete(ops2[0].n - |ops1[0].s|)] + ops2[1..], out, u, d1, d2, lift)
  {
    ConsParts(Delete(ops2[0].n - |ops1[0].s|), ops2[1..]);
    InsertShorterDeleteWrites(ops1, ops2, [Delete(ops2[0].n - |ops1[0].s|)] + ops2[1..], d1, d2, lift);
    EmptyConcat(u);
    EmptyConcat(Run(out.ops, u, lift));
    KeepsBy(ops1, ops2, out, ops1[1..], [Delete(ops2[0].n - |ops1[0].s|)] + ops2[1..], out, u, d1, d2, [], lift);
  }

  lemma InsertShorterDeleteWrites<T>(ops1: seq<Op>, ops2: seq<Op>, o2: seq<Op>, d1: seq<T>, d2: seq<T>, lift: char -> T)
    requires ops1 != [] && ops2 != [] && ops1[0].Insert? && ops2[0].Delete? && |ops1[0].s| < ops2[0].n && d1 == []
    requires o2 != [] && o2[0] == Delete(ops2[0].n - |ops1[0].s|) && o2[1..] == ops2[1..]
    requires |d1 + d2| == BaseOf(ops1) && TargetOf(ops1) == BaseOf(ops2)
    ensures |d2| == BaseOf(ops1[1..]) && TargetOf(ops1[1..]) == BaseOf(o2)
    ensures Run(ops2, Run(ops1, d1 + d2, lift), lift) == [] + Run(o2, Run(ops1[1..], d2, lift), lift)
  {
    EmptyConcat(d2);
    RunInsertHead(ops1, d2, lift);
    RunDeleteRest(ops2, o2, |ops1[0].s|, Lift(ops1[0].s, lift), Run(ops1[1..], d2, lift), lift);
    EmptyConcat(Run(o2, Run(ops1[1..], d2, lift), lift));
  }

  /** An insert against a delete of its length: both vanish. */
  lemma InsertEqualDeleteKeeps<T>(ops1: seq<Op>, ops2: seq<Op>, out: Sequence, u: seq<T>, d1: seq<T>, d2: seq<T>, lift: char -> T)
    requires ops1 != [] && ops2 != [] && ops1[0].Insert? && ops2[0].Delete? && |ops1[0].s| == ops2[0].n && d1 == []
    requires Fits(ops1, ops2, out, |u|, |d1 + d2|)
    ensures Keeps(ops1, ops2, out, ops1[1..], ops2[1..], out, u, d1, d2, lift)
  {
    InsertEqualDeleteWrites(ops1, ops2, d1, d2, lift);
    EmptyConcat(u);
    EmptyConcat(Run(out.ops, u, lift));
    KeepsBy(ops1, ops2, out, ops1[1..], ops2[1..], out, u, d1, d2, [], lift);
  }

  lemma InsertEqualDeleteWrites<T>(ops1: seq<Op>, ops2: seq<Op>, d1: seq<T>, d2: seq<T>, lift: char -> T)
    requires ops1 != [] && ops2 != [] && ops1[0].Insert? && ops2[0].Delete? && |ops1[0].s| == ops2[0].n && d1 == []
    requires |d1 + d2| == BaseOf(ops1) && TargetOf(ops1) == BaseOf(ops2)
    ensures |d2| == BaseOf(ops1[1..]) && TargetOf(ops1[1..]) == BaseOf(ops2[1..])
    ensures Run(ops2, Run(ops1, d1 + d2, lift), lift) == [] + Run(ops2[1..], Run(ops1[1..], d2, lift), lift)
  {
    EmptyConcat(d2);
    RunInsertHead(ops1, d2, lift);
    RunDeleteHead(ops2, Lift(ops1[0].s, lift), Run(ops1[1..], d2, lift), lift);
    EmptyConcat(Run(ops2[1..], Run(ops1[1..], d2, lift), lift));
  }

  /** An insert against a shorter delete: the front of the text vanishes, the rest stays. */
  lemma InsertLongerDeleteKeeps<T>(ops1: seq<Op>, ops2: seq<Op>, out: Sequence, u: seq<T>, d1: seq<T>, d2: seq<T>, lift: char -> T)
    requires ops1 != [] && ops2 != [] && ops1[0].Insert? && ops2[0].Delete? && |ops1[0].s| > ops2[0].n && d1 == []
    requires Fits(ops1, ops2, out, |u|, |d1 + d2|)
    ensures Keeps(ops1, ops2, out, [Insert(ops1[0].s[ops2[0].n..])] + ops1[1..], ops2[1..], out, u, d1, d2, lift)
  {
    ConsParts(Insert(ops1[0].s[ops2[0].n..]), ops1[1..]);
    InsertLongerDeleteWrites(ops1, ops2, [Insert(ops1[0].s[ops2[0].n..])] + ops1[1..], d1, d2, lift);
    EmptyConcat(u);
    EmptyConcat(Run(out.ops, u, lift));
    KeepsBy(ops1, ops2, out, [Insert(ops1[0].s[ops2[0].n..])] + ops1[1..], ops2[1..], out, u, d1, d2, [], lift);
  }

  lemma InsertLongerDeleteWrites<T>(ops1: seq<Op>, ops2: seq<Op>, o1: seq<Op>, d1: seq<T>, d2: seq<T>, lift: char -> T)
    requires ops1 != [] && ops2 != [] && ops1[0].Insert? && ops2[0].Delete? && |ops1[0].s| > ops2[0].n && d1 == []
    requires o1 != [] && o1[0] == Insert(ops1[0].s[ops2[0].n..]) && o1[1..] == ops1[1..]
    requires |d1 + d2| == BaseOf(ops1) && TargetOf(ops1) == BaseOf(ops2)
    ensures |d2| == BaseOf(o1) && TargetOf(o1) == BaseOf(ops2[1..])
    ensures Run(ops2, Run(ops1, d1 + d2, lift), lift) == [] + Run(ops2[1..], Run(o1, d2, lift), lift)
  {
    EmptyConcat(d2);
    RunInsertRest(ops1, o1, ops2[0].n, d2, lift);
    RunDeleteHead(ops2, Lift(ops1[0].s[..ops2[0].n], lift), Run(o1, d2, lift), lift);
    EmptyConcat(Run(ops2[1..], Run(o1, d2, lift), lift));
  }

  /** An insert against a longer retain: it is inserted, the rest of the retain stays. */
  lemma InsertShorterRetainKeeps<T>(ops1: seq<Op>, ops2: seq<Op>, out: Sequence, u: seq<T>, d1: seq<T>, d2: seq<T>, lift: char -> T)
    requires ops1 != [] && ops2 != [] && ops1[0].Insert? && ops2[0].Retain? && |ops1[0].s| < ops2[0].n && d1 == []
    requires Fits(ops1, ops2, out, |u|, |d1 + d2|)
    ensures Keeps(ops1, ops2, out, ops1[1..], [Retain(ops2[0].n - |ops1[0].s|)] + ops2[1..], AddInsert(out, ops1[0].s), u, d1, d2, lift)
  {
    ConsParts(Retain(ops2[0].n - |ops1[0].s|), ops2[1..]);
    InsertShorterRetainWrites(ops1, ops2, [Retain(ops2[0].n - |ops1[0].s|)] + ops2[1..], d1, d2, lift);
    EmptyConcat(u);
    InsertRun(out, ops1[0].s, u, lift);
    KeepsBy(ops1, ops2, out, ops1[1..], [Retain(ops2[0].n - |ops1[0].s|)] + ops2[1..], AddInsert(out, ops1[0].s), u, d1, d2, Lift(ops1[0].s, lift), lift);
  }

  lemma InsertShorterRetainWrites<T>(ops1: seq<Op>, ops2: seq<Op>, o2: seq<Op>, d1: seq<T>, d2: seq<T>, lift: char -> T)
    requires ops1 != [] && ops2 != [] && ops1[0].Insert? && ops2[0].Retain? && |ops1[0].s| < ops2[0].n && d1 == []
    requires o2 != [] && o2[0] == Retain(ops2[0].n - |ops1[0].s|) && o2[1..] == ops2[1..]
    requires |d1 + d2| == BaseOf(ops1) && TargetOf(ops1) == BaseOf(ops2)
    ensures |d2| == BaseOf(ops1[1..]) && TargetOf(ops1[1..]) == BaseOf(o2)
    ensures Run(ops2, Run(ops1, d1 + d2, lift), lift) == Lift(ops1[0].s, lift) + Run(o2, Run(ops1[1..], d2, lift), lift)
  {
    EmptyConcat(d2);
    RunInsertHead(ops1, d2, lift);
    RunRetainRest(ops2, o2, |ops1[0].s|, Lift(ops1[0].s, lift), Run(ops1[1..], d2, lift), lift);
  }

  /** An insert against a retain of its length: it is inserted. */
  lemma InsertEqualRetainKeeps<T>(ops1: seq<Op>, ops2: seq<Op>, out: Sequence, u: seq<T>, d1: seq<T>, d2: seq<T>, lift: char -> T)
    requires ops1 != [] && ops2 != [] && ops1[0].Insert? && ops2[0].Retain? && |ops1[0].s| == ops2[0].n && d1 == []
    requires Fits(ops1, ops2, out, |u|, |d1 + d2|)
    ensures Keeps(ops1, ops2, out, ops1[1..], ops2[1..], AddInsert(out, ops1[0].s), u, d1, d2, lift)
  {
    InsertEqualRetainWrites(ops1, ops2, d1, d2, lift);
    EmptyConcat(u);
    InsertRun(out, ops1[0].s, u, lift);
    KeepsBy(ops1, ops2, out, ops1[1..], ops2[1..], AddInsert(out, ops1[0].s), u, d1, d2, Lift(ops1[0].s, lift), lift);
  }

  lemma InsertEqualRetainWrites<T>(ops1: seq<Op>, ops2: seq<Op>, d1: seq<T>, d2: seq<T>, lift: char -> T)
    requires ops1 != [] && ops2 != [] && ops1[0].Insert? && ops2[0].Retain? && |ops1[0].s| == ops2[0].n && d1 == []
    requires |d1 + d2| == BaseOf(ops1) && TargetOf(ops1) == BaseOf(ops2)
    ensures |d2| == BaseOf(ops1[1..]) && TargetOf(ops1[1..]) == BaseOf(ops2[1..])
    ensures Run(ops2, Run(ops1, d1 + d2, lift), lift) == Lift(ops1[0].s, lift) + Run(ops2[1..], Run(ops1[1..], d2, lift), lift)
  {
    EmptyConcat(d2);
    RunInsertHead(ops1, d2, lift);
    RunRetainHead(ops2, Lift(ops1[0].s, lift), Run(ops1[1..], d2, lift), lift);
  }

  /** An insert against a shorter retain: the front of the text is inserted, the rest stays. */
  lemma InsertLongerRetainKeeps<T>(ops1: seq<Op>, ops2: seq<Op>, out: Sequence, u: seq<T>, d1: seq<T>, d2: seq<T>, lift: char -> T)
    requires ops1 != [] && ops2 != [] && ops1[0].Insert? && ops2[0].Retain? && |ops1[0].s| > ops2[0].n && d1 == []
    requires Fits(ops1, ops2, out, |u|, |d1 + d2|)
    ensures Keeps(ops1, ops2, out, [Insert(ops1[0].s[ops2[0].n..])] + ops1[1..], ops2[1..], AddInsert(out, ops1[0].s[..ops2[0].n]), u, d1, d2, lift)
  {
    ConsParts(Insert(ops1[0].s[ops2[0].n..]), ops1[1..]);
    InsertLongerRetainWrites(ops1, ops2, [Insert(ops1[0].s[ops2[0].n..])] + ops1[1..], d1, d2, lift);
    EmptyConcat(u);
    InsertRun(out, ops1[0].s[..ops2[0].n], u, lift);
    KeepsBy(ops1, ops2, out, [Insert(ops1[0].s[ops2[0].n..])] + ops1[1..], ops2[1..], AddInsert(out, ops1[0].s[..ops2[0].n]), u, d1, d2, Lift(ops1[0].s[..ops2[0].n], lift), lift);
  }

  lemma InsertLongerRetainWrites<T>(ops1: seq<Op>, ops2: seq<Op>, o1: seq<Op>, d1: seq<T>, d2: seq<T>, lift: char -> T)
    requires ops1 != [] && ops2 != [] && ops1[0].Insert? && ops2[0].Retain? && |ops1[0].s| > ops2[0].n && d1 == []
    requires o1 != [] && o1[0] == Insert(ops1[0].s[ops2[0].n..]) && o1[1..] == ops1[1..]
    requires |d1 + d2| == BaseOf(ops1) && TargetOf(ops1) == BaseOf(ops2)
    ensures |d2| == BaseOf(o1) && TargetOf(o1) == BaseOf(ops2[1..])
    ensures Run(ops2, Run(ops1, d1 + d2, lift), lift) == Lift(ops1[0].s[..ops2[0].n], lift) + Run(ops2[1..], Run(o1, d2, lift), lift)
  {
    EmptyConcat(d2);
    RunInsertRest(ops1, o1, ops2[0].n, d2, lift);
    RunRetainHead(ops2, Lift(ops1[0].s[..ops2[0].n], lift), Run(o1, d2, lift), lift);
  }

  /** A turn on a retain of each list. */
  lemma RetainRetainKeeps<T>(ops1: seq<Op>, ops2: seq<Op>, out: Sequence, u: seq<T>, d1: seq<T>, d2: seq<T>, lift: char -> T)
    requires ops1 != [] && ops2 != [] && ops1[0].Retain? && ops2[0].Retain?
    requires |d1| == Reads(ops1, ops2) && Fits(ops1, ops2, out, |u|, |d1 + d2|)
    ensures var t := ComposeTurn(ops1, ops2, out);
      t.Next? && Keeps(ops1, ops2, out, t.ops1, t.ops2, t.out, u, d1, d2, lift)
  {
    if ops1[0].n < ops2[0].n {
      RetainShorterRetainKeeps(ops1, ops2, out, u, d1, d2, lift);
    } else if ops1[0].n == ops2[0].n {
      RetainEqualRetainKeeps(ops1, ops2, out, u, d1, d2, lift);
    } else {
      RetainLongerRetainKeeps(ops1, ops2, out, u, d1, d2, lift);
    }
  }

  /** A turn on a retain of the first list and a delete of the second. */
  lemma RetainDeleteKeeps<T>(ops1: seq<Op>, ops2: seq<Op>, out: Sequence, u: seq<T>, d1: seq<T>, d2: seq<T>, lift: char -> T)
    requires ops1 != [] && ops2 != [] && ops1[0].Retain? && ops2[0].Delete?
    requires |d1| == Reads(ops1, ops2) && Fits(ops1, ops2, out, |u|, |d1 + d2|)
    ensures var t := ComposeTurn(ops1, ops2, out);
      t.Next? && Keeps(ops1, ops2, out, t.ops1, t.ops2, t.out, u, d1, d2, lift)
  {
    if ops1[0].n < ops2[0].n {
      RetainShorterDeleteKeeps(ops1, ops2, out, u, d1, d2, lift);
    } else if ops1[0].n == ops2[0].n {
      RetainEqualDeleteKeeps(ops1, ops2, out, u, d1, d2, lift);
    } else {
      RetainLongerDeleteKeeps(ops1, ops2, out, u, d1, d2, lift);
    }
  }

  /** A turn on an insert of the first list and a delete of the second. */
  lemma InsertDeleteKeeps<T>(ops1: seq<Op>, ops2: seq<Op>, out: Sequence, u: seq<T>, d1: seq<T>, d2: seq<T>, lift: char -> T)
    requires ops1 != [] && ops2 != [] && ops1[0].Insert? && ops2[0].Delete?
    requires |d1| == Reads(ops1, ops2) && Fits(ops1, ops2, out, |u|, |d1 + d2|)
    ensures var t := ComposeTurn(ops1, ops2, out);
      t.Next? && Keeps(ops1, ops2, out, t.ops1, t.ops2, t.out, u, d1, d2, lift)
  {
    if |ops1[0].s| < ops2[0].n {
      InsertShorterDeleteKeeps(ops1, ops2, out, u, d1, d2, lift);
    } else if |ops1[0].s| == ops2[0].n {
      InsertEqualDeleteKeeps(ops1, ops2, out, u, d1, d2, lift);
    } else {
      InsertLongerDeleteKeeps(ops1, ops2, out, u, d1, d2, lift);
    }
  }

  /** A turn on an insert of the first list and a retain of the second. */
  lemma InsertRetainKeeps<T>(ops1: seq<Op>, ops2: seq<Op>, out: Sequence, u: seq<T>, d1: seq<T>, d2: seq<T>, lift: char -> T)
    requires ops1 != [] && ops2 != [] && ops1[0].Insert? && ops2[0].Retain?
    requires |d1| == Reads(ops1, ops2) && Fits(ops1, ops2, out, |u|, |d1 + d2|)
    ensures var t := ComposeTurn(ops1, ops2, out);
      t.Next? && Keeps(ops1, ops2, out, t.ops1, t.ops2, t.out, u, d1, d2, lift)
  {
    if |ops1[0].s| < ops2[0].n {
      InsertShorterRetainKeeps(ops1, ops2, out, u, d1, d2, lift);
    } else if |ops1[0].s| == ops2[0].n {
      InsertEqualRetainKeeps(ops1, ops2, out, u, d1, d2, lift);
    } else {
      InsertLongerRetainKeeps(ops1, ops2, out, u, d1, d2, lift);
    }
  }

  /** Every turn that continues keeps the meaning of the state. */
  lemma TurnKeeps<T>(ops1: seq<Op>, ops2: seq<Op>, out: Sequence, u: seq<T>, d1: seq<T>, d2: seq<T>, lift: char -> T)
    requires ComposeTurn(ops1, ops2, out).Next?
    requires |d1| == Reads(ops1, ops2) && Fits(ops1, ops2, out, |u|, |d1 + d2|)
    ensures var t := ComposeTurn(ops1, ops2, out);
      Keeps(ops1, ops2, out, t.ops1, t.ops2, t.out, u, d1, d2, lift)
  {
    if ops1 != [] && ops1[0].Delete? {
      DeleteFirstKeeps(ops1, ops2, out, u, d1, d2, lift);
    } else if ops2 != [] && ops2[0].Insert? {
      InsertSecondKeeps(ops1, ops2, out, u, d1, d2, lift);
    } else if ops1[0].Retain? && ops2[0].Retain? {
      RetainRetainKeeps(ops1, ops2, out, u, d1, d2, lift);
    } else if ops1[0].Retain? {
      RetainDeleteKeeps(ops1, ops2, out, u, d1, d2, lift);
    } else if ops2[0].Delete? {
      InsertDeleteKeeps(ops1, ops2, out, u, d1, d2, lift);
    } else {
      InsertRetainKeeps(ops1, ops2, out, u, d1, d2, lift);
    }
  }

  /**
    What the loop returns, run on u + d, writes what the output so far
    writes from u followed by what the two remaining lists write in turn
    from d.
   */
  lemma {:induction false} ComposeLoopMeaning<T>(ops1: seq<Op>, ops2: seq<Op>, out: Sequence, u: seq<T>, d: seq<T>, lift: char -> T)
    requires ComposeLoop(ops1, ops2, out).Ok? && Fits(ops1, ops2, out, |u|, |d|)
    ensures var r := ComposeLoop(ops1, ops2, out).value;
      |u + d| == BaseOf(r.ops) && Run(r.ops, u + d, lift) == Meaning(ops1, ops2, out, u, d, lift)
    decreases |ops1| + |ops2|
  {
    ComposeLoopShape(ops1, ops2, out);
    var t := ComposeTurn(ops1, ops2, out);
    if t.Done? {
      EmptyConcat(u);
      EmptyConcat(Run(out.ops, u, lift));
    } else {
      var c := Reads(ops1, ops2);
      SplitAt(d, [], c);
      var d1, d2 := d[..c], d[c..];
      TurnKeeps(ops1, ops2, out, u, d1, d2, lift);
      ComposeLoopMeaning(t.ops1, t.ops2, t.out, u + d1, d2, lift);
      Assoc(u, d1, d2);
    }
  }

  // ---------------------------------------------------------------------
  // Compose as a whole
  // ---------------------------------------------------------------------

  /**
    On sequences whose counters agree with their operations and which hold no
    zero-length operation (everything the builders make), `Compose` fails
    exactly when the first sequence's target length differs from the second
    sequence's base length.
   */
  lemma ComposeSucceeds(a: Sequence, b: Sequence)
    requires Valid(a) && Valid(b) && NonEmptyOps(a.ops) && NonEmptyOps(b.ops)
    ensures Compose(a, b).Ok? <==> a.targetLen == b.baseLen
  {
    if a.targetLen == b.baseLen {
      ComposeLoopSucceeds(a.ops, b.ops, NewSequence());
    }
  }

  /** On any document of the right length, the composite writes what `b` writes from what `a` writes. */
  lemma ComposeMeaning<T>(a: Sequence, b: Sequence, d: seq<T>, lift: char -> T)
    requires Compose(a, b).Ok? && |d| == BaseOf(a.ops)
    ensures |d| == BaseOf(Compose(a, b).value.ops) && TargetOf(a.ops) == BaseOf(b.ops)
    ensures Run(Compose(a, b).value.ops, d, lift) == Run(b.ops, Run(a.ops, d, lift), lift)
  {
    EmptyConcat(d);
    ComposeLoopMeaning(a.ops, b.ops, NewSequence(), [], d, lift);
  }

  /**
    Applying the composite is applying `a` and then `b`: the same text, and
    the same error when the text does not fit `a`.
   */
  lemma ComposeApply(a: Sequence, b: Sequence, s: seq<char>)
    requires Valid(a) && Valid(b) && Compose(a, b).Ok?
    ensures Apply(Compose(a, b).value, s) == match Apply(a, s) case Ok(t) => Apply(b, t) case Err(e) => Err(e)
  {
    if |s| == a.baseLen {
      ComposeMeaning(a, b, s, Id);
    }
  }
}
