/**
 * The fold that the recognition engine's result handler runs over one batch
 * of results: final transcripts are committed (each followed by a space),
 * interim transcripts are only collected for the status line.
 */
module Dictation {
  import opened Text

  /** One recognition result: the transcript of its first alternative and whether it is final. */
  datatype Fragment = Fragment(transcript: string, isFinal: bool)

  /** The results the handler visits: those from `resultIndex` on, none if the index is past the end. */
  function Pending(results: seq<Fragment>, resultIndex: nat): seq<Fragment> {
    if resultIndex <= |results| then results[resultIndex..] else []
  }

  /** The text the loop accumulates in `finalTranscript` after visiting `rs`. */
  function FinalText(rs: seq<Fragment>): string {
    if rs == [] then ""
    else
      var f := rs[|rs| - 1];
      FinalText(rs[..|rs| - 1]) + (if f.isFinal then f.transcript + " " else "")
  }

  /** The text the loop accumulates in `interimTranscript` after visiting `rs`. */
  function InterimText(rs: seq<Fragment>): string {
    if rs == [] then ""
    else
      var f := rs[|rs| - 1];
      InterimText(rs[..|rs| - 1]) + (if f.isFinal then "" else f.transcript)
  }

  /**
   * The loop of the result handler: visits `results[resultIndex..]` in index
   * order and returns the committed and the interim text.
   */
  method FoldBatch(results: seq<Fragment>, resultIndex: nat) returns (finalTranscript: string, interimTranscript: string)
    ensures finalTranscript == FinalText(Pending(results, resultIndex))
    ensures interimTranscript == InterimText(Pending(results, resultIndex))
  {
    interimTranscript := "";
    finalTranscript := "";
    var i := resultIndex;
    while i < |results|
      invariant resultIndex <= i
      invariant resultIndex <= |results| ==> i <= |results|
      invariant resultIndex > |results| ==> i == resultIndex && finalTranscript == "" && interimTranscript == ""
      invariant i <= |results| ==> finalTranscript == FinalText(results[resultIndex..i])
      invariant i <= |results| ==> interimTranscript == InterimText(results[resultIndex..i])
    {
      assert results[resultIndex..i + 1][..i - resultIndex] == results[resultIndex..i];
      var transcript := results[i].transcript;
      if results[i].isFinal {
        finalTranscript := finalTranscript + transcript + " ";
      } else {
        interimTranscript := interimTranscript + transcript;
      }
      i := i + 1;
    }
    if resultIndex <= |results| {
      assert results[resultIndex..i] == results[resultIndex..];
    }
  }

  // ----- an independent description of the fold -----

  /** The transcripts of the final fragments of `rs`, in order. */
  function Finals(rs: seq<Fragment>): seq<string> {
    if rs == [] then []
    else (if rs[0].isFinal then [rs[0].transcript] else []) + Finals(rs[1..])
  }

  /** The transcripts of the interim fragments of `rs`, in order. */
  function Interims(rs: seq<Fragment>): seq<string> {
    if rs == [] then []
    else (if rs[0].isFinal then [] else [rs[0].transcript]) + Interims(rs[1..])
  }

  /** Each string of `ts` followed by one space. */
  function Spaced(ts: seq<string>): string {
    if ts == [] then "" else ts[0] + " " + Spaced(ts[1..])
  }

  lemma {:induction false} FinalsAppend(a: seq<Fragment>, b: seq<Fragment>)
    ensures Finals(a + b) == Finals(a) + Finals(b)
    decreases |a|
  {
    if a == [] {
      assert a + b == b;
    } else {
      assert (a + b)[0] == a[0];
      assert (a + b)[1..] == a[1..] + b;
      FinalsAppend(a[1..], b);
    }
  }

  lemma {:induction false} InterimsAppend(a: seq<Fragment>, b: seq<Fragment>)
    ensures Interims(a + b) == Interims(a) + Interims(b)
    decreases |a|
  {
    if a == [] {
      assert a + b == b;
    } else {
      assert (a + b)[0] == a[0];
      assert (a + b)[1..] == a[1..] + b;
      InterimsAppend(a[1..], b);
    }
  }

  lemma {:induction false} SpacedAppend(a: seq<string>, b: seq<string>)
    ensures Spaced(a + b) == Spaced(a) + Spaced(b)
    decreases |a|
  {
    if a == [] {
      assert a + b == b;
    } else {
      assert (a + b)[1..] == a[1..] + b;
      SpacedAppend(a[1..], b);
    }
  }

  /**
   * The committed text is every final transcript, in index order, each
   * followed by one space; the interim text is the interim transcripts joined.
   */
  lemma {:induction false} FoldMeaning(rs: seq<Fragment>)
    ensures FinalText(rs) == Spaced(Finals(rs))
    ensures InterimText(rs) == Concat(Interims(rs))
    decreases |rs|
  {
    if rs != [] {
      var init, f := rs[..|rs| - 1], rs[|rs| - 1];
      assert rs == init + [f];
      FoldMeaning(init);
      FinalsAppend(init, [f]);
      InterimsAppend(init, [f]);
      assert Finals([f]) == if f.isFinal then [f.transcript] else [];
      assert Interims([f]) == if f.isFinal then [] else [f.transcript];
      SpacedAppend(Finals(init), Finals([f]));
      ConcatAppend(Interims(init), Interims([f]));
    }
  }

  /**
   * Interim transcripts never reach the committed text: rewriting the
   * transcript of an interim fragment leaves `FinalText` unchanged.
   */
  lemma {:induction false} InterimNeverCommitted(rs: seq<Fragment>, k: nat, t: string)
    requires k < |rs| && !rs[k].isFinal
    ensures FinalText(rs[k := Fragment(t, false)]) == FinalText(rs)
    decreases |rs|
  {
    var rs' := rs[k := Fragment(t, false)];
    if k < |rs| - 1 {
      assert rs'[..|rs'| - 1] == rs[..|rs| - 1][k := Fragment(t, false)];
      InterimNeverCommitted(rs[..|rs| - 1], k, t);
    } else {
      assert rs'[..|rs'| - 1] == rs[..|rs| - 1];
    }
  }

  /** Final transcripts never reach the interim text, symmetrically. */
  lemma {:induction false} FinalNeverInterim(rs: seq<Fragment>, k: nat, t: string)
    requires k < |rs| && rs[k].isFinal
    ensures InterimText(rs[k := Fragment(t, true)]) == InterimText(rs)
    decreases |rs|
  {
    var rs' := rs[k := Fragment(t, true)];
    if k < |rs| - 1 {
      assert rs'[..|rs'| - 1] == rs[..|rs| - 1][k := Fragment(t, true)];
      FinalNeverInterim(rs[..|rs| - 1], k, t);
    } else {
      assert rs'[..|rs'| - 1] == rs[..|rs| - 1];
    }
  }

  /**
   * Two final fragments and one interim one: both finals are committed in
   * order, each followed by a space, and only the interim one is shown.
   */
  lemma TwoFinalsOneInterim(first: string, second: string, interim: string)
    ensures FinalText([Fragment(first, true), Fragment(second, true), Fragment(interim, false)]) == first + " " + second + " "
    ensures InterimText([Fragment(first, true), Fragment(second, true), Fragment(interim, false)]) == interim
  {
    var rs := [Fragment(first, true), Fragment(second, true), Fragment(interim, false)];
    var two, one := rs[..2], rs[..1];
    assert two[..1] == one && one[..0] == [];
    assert FinalText(one) == first + " " && InterimText(one) == "";
    assert FinalText(two) == first + " " + second + " " && InterimText(two) == "";
  }
}
