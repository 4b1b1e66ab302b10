/** Output events and the per-fragment forwarding rule of `runInference`
    (agent/agent.go). */
module Events {

  /** The incremental part of a content_block_delta fragment. */
  datatype Delta = TextDelta(text: string) | InputJsonDelta(partialJson: string) | OtherDelta

  /** One fragment of a streamed model response. */
  datatype StreamEvent =
    | MessageStart
    | ContentBlockStart(index: nat)
    | ContentBlockDelta(index: nat, delta: Delta)
    | ContentBlockStop(index: nat)
    | MessageDelta
    | MessageStop

  /** What the agent sends to the presentation layer. */
  datatype OutputEvent =
    | AssistantPrefix(content: string)
    | UserPrefix(content: string)
    | Content(content: string)
    | Newline
    | Raw(event: StreamEvent)

  /** The text a fragment adds to the response, if it carries a text delta. */
  function DeltaText(e: StreamEvent): string {
    if e.ContentBlockDelta? && e.delta.TextDelta? then e.delta.text else ""
  }

  predicate IsTextDelta(e: StreamEvent) {
    e.ContentBlockDelta? && e.delta.TextDelta?
  }

  /** The events one fragment produces: its raw event, then at once its
      text when it is a text delta. */
  function ForwardOne(e: StreamEvent): (r: seq<OutputEvent>)
    ensures 1 <= |r| <= 2 && r[0] == Raw(e)
    ensures |r| == 2 <==> IsTextDelta(e)
    ensures |r| == 2 ==> r[1] == Content(DeltaText(e))
  {
    if IsTextDelta(e) then [Raw(e), Content(e.delta.text)] else [Raw(e)]
  }

  /** The events forwarded for a sequence of fragments: each fragment as a
      raw event, followed by a content event with its text when it is a text
      delta. */
  function Forward(fragments: seq<StreamEvent>): seq<OutputEvent>
    decreases |fragments|
  {
    if |fragments| == 0 then []
    else ForwardOne(fragments[0]) + Forward(fragments[1..])
  }

  /** The fragments carried by the raw events, in order. */
  function RawOf(events: seq<OutputEvent>): seq<StreamEvent>
    decreases |events|
  {
    if |events| == 0 then []
    else (if events[0].Raw? then [events[0].event] else []) + RawOf(events[1..])
  }

  /** The concatenated text of the content events. */
  function ContentText(events: seq<OutputEvent>): string
    decreases |events|
  {
    if |events| == 0 then []
    else (if events[0].Content? then events[0].content else "") + ContentText(events[1..])
  }

  /** The concatenated text of the text deltas. */
  function StreamedText(fragments: seq<StreamEvent>): string
    decreases |fragments|
  {
    if |fragments| == 0 then [] else DeltaText(fragments[0]) + StreamedText(fragments[1..])
  }

  /** The number of text-delta fragments. */
  function TextDeltas(fragments: seq<StreamEvent>): nat
    decreases |fragments|
  {
    if |fragments| == 0 then 0 else (if IsTextDelta(fragments[0]) then 1 else 0) + TextDeltas(fragments[1..])
  }

  lemma {:induction false} RawOfAppend(a: seq<OutputEvent>, b: seq<OutputEvent>)
    ensures RawOf(a + b) == RawOf(a) + RawOf(b)
    decreases |a|
  {
    if |a| > 0 {
      assert (a + b)[1..] == a[1..] + b;
      RawOfAppend(a[1..], b);
    } else {
      assert a + b == b;
    }
  }

  lemma {:induction false} ContentTextAppend(a: seq<OutputEvent>, b: seq<OutputEvent>)
    ensures ContentText(a + b) == ContentText(a) + ContentText(b)
    decreases |a|
  {
    if |a| > 0 {
      assert (a + b)[1..] == a[1..] + b;
      ContentTextAppend(a[1..], b);
    } else {
      assert a + b == b;
    }
  }

  /** Forwarding relays every fragment once, in order, as a raw event; adds
      exactly one content event per text delta; and the content events spell
      out exactly the streamed text. */
  lemma {:induction false} ForwardFaithful(fragments: seq<StreamEvent>)
    ensures RawOf(Forward(fragments)) == fragments
    ensures ContentText(Forward(fragments)) == StreamedText(fragments)
    ensures |Forward(fragments)| == |fragments| + TextDeltas(fragments)
    decreases |fragments|
  {
    if |fragments| > 0 {
      var e := fragments[0];
      var head := ForwardOne(e);
      ForwardFaithful(fragments[1..]);
      RawOfAppend(head, Forward(fragments[1..]));
      ContentTextAppend(head, Forward(fragments[1..]));
      assert fragments == [e] + fragments[1..];
    }
  }

  /** Forwarding never emits a prefix or line-break event. */
  lemma {:induction false} ForwardOnlyRawAndContent(fragments: seq<StreamEvent>)
    ensures forall k :: 0 <= k < |Forward(fragments)| ==> Forward(fragments)[k].Raw? || Forward(fragments)[k].Content?
    decreases |fragments|
  {
    if |fragments| > 0 {
      ForwardOnlyRawAndContent(fragments[1..]);
    }
  }

  /** Forwarding is incremental: one more fragment appends exactly its own
      raw event and, straight after it, its content event, so the two are
      interleaved per fragment as they are sent. */
  lemma {:induction false} ForwardAppend(fragments: seq<StreamEvent>, e: StreamEvent)
    ensures Forward(fragments + [e]) == Forward(fragments) + ForwardOne(e)
    decreases |fragments|
  {
    if |fragments| == 0 {
      assert fragments + [e] == [e];
      assert [e][1..] == [];
    } else {
      var f := fragments + [e];
      assert f[0] == fragments[0];
      assert f[1..] == fragments[1..] + [e];
      ForwardAppend(fragments[1..], e);
    }
  }
}
