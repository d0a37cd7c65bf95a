# Operational-transformation algebra of pancakeswya/ot, in Dafny

This project models the text-editing algebra of `pancakeswya/ot`. An edit
is a `Sequence`: a list of operations (`Retain(n)`, `Insert(s)`, `Delete(n)`)
and two counters. `BaseLen` is the length of the text the sequence applies
to, and `TargetLen` is the length of the text it produces. The project
covers:

- the three builders, which keep the list in a normal form as they append;
- `Apply`, `IsNoop`, `Compose`, `Transform` and `Invert`.

Every operation is a pure function over immutable values, and the
properties the source and its tests promise are proved about them.

Files:

- `operation.dfy`: the operation sum type (`Operations`) and the error/result type (`Results`).
- `sequence.dfy`: the `Sequence` record, its lengths, the normal form, the builders and `IsNoop` (`Sequences`).
- `apply.dfy`: `Apply`, as a function and as the source's loop (`Documents`). It runs a sequence on a generic document of `T`s, given how inserted characters are written into it. Text is the instance `T = char`.
- `compose.dfy`: `Compose` as the source's two-cursor loop, and its meaning (`Composition`).
- `transform.dfy`: `Transform` as the source's two-cursor loop, and convergence (`Transformation`). It also holds the combined law about Transform followed by Compose (`TransformLaws`).
- `invert.dfy`: `Invert` and the round trip (`Inversion`).
- `canonical.dfy`: uniqueness of the normal form and its structural consequences (`Canonical`).

How the model is built:

- The loops of `Compose`, `Transform` and `Invert` are recursive functions.
  - They carry the builder being filled, like the source's `newOp`, `aPrime`/`bPrime` and `inverse`.
  - Where the source overwrites `ops1[i1]` or `ops2[i2]` in its clone, the model replaces the head of the remaining list.
- Their meaning is proved on any document type. This lets the same lemmas serve two purposes.
  - On text (`T = char`) they give the `Apply` laws.
  - On tagged documents they give structural equality. A tagged document's elements remember their original position, or that they were inserted.

## Model

| member | source | states |
|---|---|---|
| Sequences.NewSequence | sequence.go:19-21 | The new sequence has no operations and both counters are zero. |
| Sequences.AddDelete | sequence.go:23-37 | `Delete(0)` changes nothing. `Delete(n)` adds n to `BaseLen` only, and adds n to what the operations read. The normal form is kept. |
| Sequences.AddInsert | sequence.go:39-66 | `Insert("")` changes nothing. `Insert(s)` adds the rune count of s to `TargetLen` only. The normal form is kept, even when the insert is slotted in front of a trailing delete. |
| Sequences.AddRetain | sequence.go:68-83 | `Retain(0)` changes nothing. `Retain(n)` adds n to both counters and to both what the operations read and write. The normal form is kept. |
| Sequences.IsNoop | sequence.go:111-120 | `IsNoop` is true only when every operation is a retain. It counts operations instead of inspecting them, so it is exact only on lists whose retains have been merged. |
| Sequences.IsNoopIffOnlyRetains | sequence.go:111-120 | On a normalised sequence, `IsNoop` holds exactly when every operation is a retain. |
| Sequences.IsNoopKeepsLength | sequence.go:111-120 | A no-op sequence has `BaseLen == TargetLen`. |
| Sequences.RetainChunks | sequence_test.go:160-207 | `Retain(a)` then `Retain(b)` builds the same value as `Retain(a+b)`. |
| Sequences.DeleteChunks | sequence_test.go:160-207 | `Delete(a)` then `Delete(b)` builds the same value as `Delete(a+b)`. |
| Sequences.InsertChunks | sequence_test.go:160-207 | `Insert(s)` then `Insert(t)` builds the same value as `Insert(s+t)`. |
| Sequences.InsertDeleteCommute | sequence_test.go:139-158 | A delete and an insert at the same place build the same value in either order. |
| Documents.RetainRun | sequence.go:96-100 | After `Retain(n)`, the sequence writes what it wrote before, followed by the n characters it now also reads. |
| Documents.DeleteRun | sequence.go:101-102 | After `Delete(n)`, the sequence writes exactly what it wrote before, and it reads n more characters. |
| Documents.InsertRun | sequence.go:103-104 | After `Insert(s)`, the sequence writes what it wrote before followed by s. This holds even where the builder moves the insert in front of a delete. |
| Documents.Apply | sequence.go:85-109 | `Apply` fails exactly when the text length differs from `BaseLen`. Otherwise the result has `TargetLen` runes. |
| Documents.ApplyText | sequence.go:85-109 | The source's loop, with its rune cursor, computes the same result as `Apply`. |
| Documents.IsNoopIsIdentity | sequence.go:111-120 | A no-op sequence returns any text of the right length unchanged. |
| Composition.Compose | sequence.go:122-217 | Compose fails when `a.TargetLen != b.BaseLen`. On success the result is valid and normalised. Its base length is what `a`'s operations read and its target length is what `b`'s operations write. When both inputs' counters agree with their operations, these are `a.BaseLen` and `b.TargetLen`. |
| Composition.ComposeSucceeds | sequence.go:147-149 | When the entry check passes, the "ran out of operations" error is unreachable. So Compose succeeds exactly when `a.TargetLen == b.BaseLen`. |
| Composition.ComposeMeaning | sequence.go:132-214 | On any document, the composite writes what `b` writes from what `a` writes. |
| Composition.ComposeApply | sequence_test.go:103-137 | Applying the composite equals applying `a` and then `b`. It fails with the same error when the text does not fit. |
| Transformation.Transform | sequence.go:219-317 | Transform fails when the base lengths differ. On success both results are valid and normalised, and `a'` reads what `b` writes and `b'` what `a` writes. |
| Transformation.TransformSucceeds | sequence.go:248-250 | When the entry check passes, the "ran out of operations" error is unreachable. So Transform succeeds exactly when `a.BaseLen == b.BaseLen`. |
| Transformation.TransformMeaning | sequence.go:231-314 | Convergence on any document: `b'` after `a` and `a'` after `b` both write the same merged document. |
| Transformation.TransformApply | sequence_test.go:209-242 | Applying `a` then `b'` gives the same text as applying `b` then `a'`. |
| Transformation.TransformTieBreak | sequence.go:231-246 | When `a` and `b` both keep the first k characters (k may be 0) and then insert `x` and `y`, both converged texts begin with those k characters, then `x`, then `y`. |
| TransformLaws.TransformComposes | sequence_test.go:209-242 | Transform succeeds, both composites `a;b'` and `b;a'` succeed, and they apply to the same text. |
| Inversion.InvertFrom | sequence.go:324-335 | The inverse built by the loop reads what the remaining operations write and writes what they read. The builders keep it valid and normalised. |
| Inversion.Invert | sequence.go:319-338 | The inverse is valid and normalised, with `BaseLen = o.TargetLen` and `TargetLen = o.BaseLen`. |
| Inversion.ReachesWhenLongEnough | sequence.go:331-333 | No delete slices past the end of a text at least as long as `BaseLen`. |
| Inversion.InvertOneOp | sequence.go:326-333 | For a sequence of one operation on a text at position 0: a retain inverts to the same retain, an insert to a delete of its rune count, and a delete to an insert of the runes it removes. |
| Inversion.InvertUndoes | sequence.go:319-338 | On any text of length `BaseLen`, the inverse run on the sequence's output gives the text back. |
| Inversion.InvertApply | sequence_test.go:244-267 | `Apply(Invert(o, s), Apply(o, s)) == s`, with both applications succeeding. |
| Canonical.Lead | sequence.go:29-82 | On a tagged document, the first element a normalised sequence writes identifies the kind of its first operation. |
| Canonical.Unique | sequence.go:29-82 | Two normalised operation lists that read the same length and write the same tagged document are equal. |
| Canonical.SameOutputSameSequence | sequence.go:11-15 | Two valid, normalised sequences that write the same tagged document are equal as values. |
| Canonical.TransformCompositesEqual | sequence_test.go:235 | The two composites `a;b'` and `b;a'` are the same value: the same operations and the same counters. |
| Canonical.ComposeAssociative | sequence.go:122-217 | `(a;b);c` and `a;(b;c)` both succeed and are the same value. |

## Left out

- `MarshalJSON`/`UnmarshalJSON` (sequence.go:340-381) are left out. They are a wrapper over `encoding/json`, JSON numbers decode as floats, and converting a negative float to `uint64` is implementation-defined in Go.
- wasm/main.go and test/test.js are left out. They are host bindings and a Node test driver with no algebra in them.
- The random generators of utils.go (`genString`, `genSequence`, `randInt`, `randFloat`) are left out. `cloneOps` is a slice copy, and value semantics give it for free: no operation here can change its inputs.
- UTF-8 decoding is not modelled. Texts and insert payloads are sequences of runes, one `char` per rune, so `utf8.RuneCountInString` is the length.
- Integer widths are not modelled. Counts are `uint64` and counters `int` in the source; here both are unbounded, so overflow and the `int(n)` conversions are not covered.
- Documents.Apply: the model requires `Valid(q)`, meaning the counters agree with the operations. The source exports the fields, so a hand-built sequence can disagree. The source then compares the text against `BaseLen` alone and may panic while indexing.
- Composition.ComposeSucceeds: the success direction also requires that no operation has a zero count. With a hand-built `Retain(0)`, the "ran out of operations" error is reachable even when the entry check passes.
- Transformation.TransformSucceeds: the success direction requires the same absence of zero-count operations, for the same reason.
- Transformation.TransformTieBreak: also requires that `a`'s first insert is not directly followed by another insert. No builder produces two inserts in a row. When a hand-built `a` has them, both of its texts come first. The lemma covers inserts after a retained prefix that both sides share. Where one side deletes some of the prefix, the order still follows from `TransformMeaning`, but it is not stated as a lemma.
- Inversion.Invert: the source has no length check. It slices `chars[pos:pos+N]` and panics when a delete reads past the end. The requirement `Reaches` is exactly "no delete reads past the length of the text". Go's slice capacity can exceed the length of `[]rune(s)`, and the model does not track capacity.

## Notes on the code

- The builder moves an insert that arrives after a delete in front of that delete (sequence.go:52-62). So the normal form forbids a delete directly before an insert, and the order of kinds in a list is not the order of the builder calls.
- Transform has a fixed tie-break, with `a`'s inserts first (sequence.go:232-239). No argument chooses the other order.
- Invert has no length check and slices `chars[pos:pos+N]` (sequence.go:332). The model states the condition under which no slice runs past the end as the requirement `Reaches`.
