/**
 * The Translation Client without its HTTP request: the two checks made before
 * any request is sent, and the reassembly of the decoded segment list.
 */
module Translation {
  import opened Wrappers
  import opened Text

  const BlankTextMessage: string := "Please enter text to translate"
  const SameLanguagesMessage: string := "Source and target languages are the same!"
  const TranslatingMessage: string := "Translating..."
  /** The prefix the page puts before every error it reports in the output area. */
  const ErrorPrefix: string := "Error: "
  /** "Error: Unable to translate. Please try again." */
  const FailureMessage: string := ErrorPrefix + "Unable to translate. Please try again."

  /** The query the page would send to the translation endpoint. */
  datatype Request = Request(text: string, source: string, target: string)

  datatype Validation = BlankText | SameLanguages | Send(request: Request)

  /**
   * `translateText`'s checks, in their order: blank text first, identical
   * languages second; only text that passes both yields a request.
   */
  function Validate(text: string, source: string, target: string): (v: Validation)
    ensures v.BlankText? <==> IsBlank(text)
    ensures v.SameLanguages? <==> !IsBlank(text) && source == target
    ensures v.Send? <==> !IsBlank(text) && source != target
    ensures v.Send? ==> v.request == Request(text, source, target)
  {
    if IsBlank(text) then BlankText
    else if source == target then SameLanguages
    else Send(Request(text, source, target))
  }

  /** What the output area shows once the checks are done and before any reply. */
  function ValidationStatus(v: Validation): string {
    match v
    case BlankText => BlankTextMessage
    case SameLanguages => SameLanguagesMessage
    case Send(_) => TranslatingMessage
  }

  /** Blank text is reported as blank even when the two languages are also equal. */
  lemma BlankTakesPrecedence(text: string, lang: string)
    requires IsBlank(text)
    ensures ValidationStatus(Validate(text, lang, lang)) == BlankTextMessage
  {
  }

  /** One element of `result[0]`: the translated chunk is its first cell. */
  type Segment = seq<string>

  /** `item[0]`; an empty item gives `undefined`, which `join` renders as the empty string. */
  function SegmentText(item: Segment): string {
    if item == [] then "" else item[0]
  }

  /** `result[0].map(item => item[0])`: the chunk of every segment, in order. */
  function Chunks(segments: seq<Segment>): seq<string> {
    seq(|segments|, i requires 0 <= i < |segments| => SegmentText(segments[i]))
  }

  /** `result[0].map(item => item[0]).join('')`, one segment at a time. */
  function Reassemble(segments: seq<Segment>): string {
    if segments == [] then "" else SegmentText(segments[0]) + Reassemble(segments[1..])
  }

  /** Reassembly is the join of the mapped chunks. */
  lemma {:induction false} ReassembleIsConcat(segments: seq<Segment>)
    ensures Reassemble(segments) == Concat(Chunks(segments))
    decreases |segments|
  {
    if segments != [] {
      ReassembleIsConcat(segments[1..]);
      assert Chunks(segments)[1..] == Chunks(segments[1..]);
    }
  }

  /**
   * The reassembled string consists of what the first `k` segments give,
   * then the `k`-th segment's chunk, then what the rest give: every chunk is
   * kept, once, in response order.
   */
  lemma {:induction false} ReassembleSplit(segments: seq<Segment>, k: nat)
    requires k < |segments|
    ensures Reassemble(segments) == Reassemble(segments[..k]) + SegmentText(segments[k]) + Reassemble(segments[k + 1..])
    decreases k
  {
    if k == 0 {
      assert segments[..0] == [];
    } else {
      ReassembleSplit(segments[1..], k - 1);
      assert segments[1..][..k - 1] == segments[1..k];
      assert segments[1..][k - 1] == segments[k];
      assert segments[1..][k..] == segments[k + 1..];
      assert segments[..k][1..] == segments[1..k];
    }
  }

  /** The reassembled length is the sum of the chunk lengths. */
  function TotalLength(segments: seq<Segment>): nat {
    if segments == [] then 0 else |SegmentText(segments[0])| + TotalLength(segments[1..])
  }

  lemma {:induction false} ReassembleLength(segments: seq<Segment>)
    ensures |Reassemble(segments)| == TotalLength(segments)
    decreases |segments|
  {
    if segments != [] {
      ReassembleLength(segments[1..]);
    }
  }

  /** `[[["Hola","Hello",null,null,1]], …]` gives "Hola" (the non-string cells of the item are not modelled). */
  lemma HolaExample()
    ensures Reassemble([["Hola", "Hello"]]) == "Hola"
  {
  }

  /**
   * The output after the reply: the reassembled translation, or the generic
   * failure text when the request failed, the status was not OK, the body
   * did not parse or had no segment list (`reply` is `None`).
   */
  function ReplyStatus(reply: Option<seq<Segment>>): (out: string)
    ensures reply.None? ==> out == FailureMessage
    ensures reply.Some? ==> out == Concat(Chunks(reply.value))
  {
    match reply
    case None => FailureMessage
    case Some(segments) => ReassembleIsConcat(segments); Reassemble(segments)
  }
}
