/**
 * What the OCR engine hands to the post-processing: one detection per text
 * span, in the engine's order. The bounding box is not used by any of the
 * post-processing and is omitted.
 */
module Recognition {

  datatype Detection = Detection(text: string, confidence: real)

  /** `''.join(fragments)`: the fragments concatenated in order, with no separator. */
  function Join(fragments: seq<string>): string {
    if fragments == [] then "" else Join(fragments[..|fragments| - 1]) + fragments[|fragments| - 1]
  }

  /** Appending a fragment appends its text to the joined string. */
  lemma JoinSnoc(fragments: seq<string>, f: string)
    ensures Join(fragments + [f]) == Join(fragments) + f
  {
    assert (fragments + [f])[..|fragments|] == fragments;
  }

  /** The strings `f` derives from each detection, concatenated in detection order. */
  function Gather(f: Detection -> string, results: seq<Detection>): string {
    if results == [] then "" else Gather(f, results[..|results| - 1]) + f(results[|results| - 1])
  }

  /** Gathering two batches of detections gathers each batch, in order. */
  lemma {:induction false} GatherAppend(f: Detection -> string, a: seq<Detection>, b: seq<Detection>)
    ensures Gather(f, a + b) == Gather(f, a) + Gather(f, b)
    decreases |b|
  {
    if b == [] {
      assert a + b == a;
    } else {
      var b' := b[..|b| - 1];
      assert (a + b)[..|a + b| - 1] == a + b';
      GatherAppend(f, a, b');
    }
  }

  /** A detection whose own string is empty has no effect on the gathered string, wherever it occurs. */
  lemma GatherSkipsEmpty(f: Detection -> string, a: seq<Detection>, d: Detection, b: seq<Detection>)
    requires f(d) == ""
    ensures Gather(f, a + [d] + b) == Gather(f, a + b)
  {
    GatherAppend(f, a + [d], b);
    GatherAppend(f, a, [d]);
    GatherAppend(f, a, b);
    assert [d][..0] == [];
  }

  /** One detection gathers to its own string. */
  lemma GatherSingle(f: Detection -> string, d: Detection)
    ensures Gather(f, [d]) == f(d)
  {
    assert [d][..0] == [];
  }
}
