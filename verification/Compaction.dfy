/**
  Replacing the older part of a conversation by a summary: where the recent
  part begins, and the request context that results.
 */
module Compaction {
  import opened Projection
  import opened Strings
  import opened Transcript
  import opened Wrappers

  const OUTPUT_LIMIT: nat := 65536
  const MAX_SIZE: nat := 0xFFFF_FFFF_FFFF_FFFF

  // ----- The cost of the recent part

  /** What a message counts: tokens the provider reported, or its text bytes and
      the tokens of its media. */
  datatype Weight = Measured(tokens: nat) | Estimated(bytes: nat, media: nat)

  datatype Totals = Totals(bytes: nat, measured: nat, media: nat)

  /** Tokens and bytes of a provider measurement. */
  type Calibration = p: (nat, nat) | p.1 > 0 witness (1, 1)

  function SaturatingAdd(a: nat, b: nat): nat { if a + b > MAX_SIZE then MAX_SIZE else a + b }

  function CeilingDiv(a: nat, b: nat): nat
    requires b > 0
  {
    (a + b - 1) / b
  }

  function EstimateBytes(calibration: Option<Calibration>, size: nat): nat {
    match calibration
    case None => CeilingDiv(size, 4)
    case Some((tokens, bytes)) =>
      var scaled := CeilingDiv(size * (if tokens <= bytes then tokens else bytes), bytes);
      if scaled > MAX_SIZE then MAX_SIZE else scaled
  }

  function Added(t: Totals, w: Weight): Totals {
    match w
    case Measured(tokens) => t.(measured := SaturatingAdd(t.measured, tokens))
    case Estimated(bytes, media) => t.(bytes := SaturatingAdd(t.bytes, bytes), media := SaturatingAdd(t.media, media))
  }

  /** The totals of the messages from `i` on that were not withdrawn. */
  function TotalsFrom(returned: set<nat>, weights: seq<Weight>, i: nat): Totals
    requires i <= |weights|
    decreases |weights| - i
  {
    if i == |weights| then Totals(0, 0, 0)
    else
      var rest := TotalsFrom(returned, weights, i + 1);
      if i in returned then rest else Added(rest, weights[i])
  }

  function Cost(calibration: Option<Calibration>, t: Totals): nat {
    SaturatingAdd(SaturatingAdd(EstimateBytes(calibration, t.bytes), t.measured), t.media)
  }

  predicate Fits(calibration: Option<Calibration>, returned: set<nat>, weights: seq<Weight>, budget: nat, i: nat)
    requires i <= |weights|
  {
    Cost(calibration, TotalsFrom(returned, weights, i)) <= budget
  }

  lemma ProductMonotone(a: nat, b: nat, t: nat)
    requires a <= b
    ensures a * t <= b * t
  {
  }

  lemma {:induction false} QuotientMonotone(a: nat, b: nat, d: nat)
    requires a <= b && d > 0
    ensures a / d <= b / d
  {
    if a / d > b / d {
      ProductMonotone(b / d + 1, a / d, d);
    }
  }

  lemma EstimateMonotone(calibration: Option<Calibration>, a: nat, b: nat)
    requires a <= b
    ensures EstimateBytes(calibration, a) <= EstimateBytes(calibration, b)
  {
    match calibration
    case None =>
      QuotientMonotone(a + 3, b + 3, 4);
    case Some((tokens, bytes)) =>
      var t := if tokens <= bytes then tokens else bytes;
      ProductMonotone(a, b, t);
      QuotientMonotone(a * t + bytes - 1, b * t + bytes - 1, bytes);
  }

  ghost predicate AtMost(t: Totals, u: Totals) {
    t.bytes <= u.bytes && t.measured <= u.measured && t.media <= u.media
  }

  /** A longer suffix never costs less. */
  lemma {:induction false} LongerCostsMore(
    calibration: Option<Calibration>, returned: set<nat>, weights: seq<Weight>, i: nat, j: nat
  )
    requires i <= j <= |weights|
    ensures Cost(calibration, TotalsFrom(returned, weights, j)) <= Cost(calibration, TotalsFrom(returned, weights, i))
  {
    hide EstimateBytes;
    LongerWeighsMore(returned, weights, i, j);
    EstimateMonotone(calibration, TotalsFrom(returned, weights, j).bytes, TotalsFrom(returned, weights, i).bytes);
  }

  lemma {:induction false} LongerWeighsMore(returned: set<nat>, weights: seq<Weight>, i: nat, j: nat)
    requires i <= j <= |weights|
    ensures AtMost(TotalsFrom(returned, weights, j), TotalsFrom(returned, weights, i))
    ensures Within(TotalsFrom(returned, weights, i))
    decreases |weights| - i
  {
    if i < |weights| {
      LongerWeighsMore(returned, weights, i + 1, if i < j then j else i + 1);
    }
  }

  ghost predicate Within(t: Totals) {
    t.bytes <= MAX_SIZE && t.measured <= MAX_SIZE && t.media <= MAX_SIZE
  }

  // ----- What the cost counts

  function Cap(n: nat): nat { if n > MAX_SIZE then MAX_SIZE else n }

  /** One part of the weights from `i` on, withdrawn messages left out. */
  function Sum(returned: set<nat>, weights: seq<Weight>, i: nat, part: Weight -> nat): nat
    requires i <= |weights|
    decreases |weights| - i
  {
    if i == |weights| then 0
    else (if i in returned then 0 else part(weights[i])) + Sum(returned, weights, i + 1, part)
  }

  function Bytes(w: Weight): nat { if w.Estimated? then w.bytes else 0 }

  function Media(w: Weight): nat { if w.Estimated? then w.media else 0 }

  function Reported(w: Weight): nat { if w.Measured? then w.tokens else 0 }

  lemma {:induction false} TotalsAreSums(returned: set<nat>, weights: seq<Weight>, i: nat)
    requires i <= |weights|
    ensures TotalsFrom(returned, weights, i) ==
            Totals(Cap(Sum(returned, weights, i, Bytes)), Cap(Sum(returned, weights, i, Reported)),
                   Cap(Sum(returned, weights, i, Media)))
    decreases |weights| - i
  {
    if i < |weights| {
      TotalsAreSums(returned, weights, i + 1);
    }
  }

  /** The estimate of the text bytes, and every token reported for an answer or
      counted for media. */
  lemma CostMeans(calibration: Option<Calibration>, returned: set<nat>, weights: seq<Weight>, i: nat)
    requires i <= |weights|
    ensures Cost(calibration, TotalsFrom(returned, weights, i)) ==
            Cap(EstimateBytes(calibration, Cap(Sum(returned, weights, i, Bytes)))
                + Sum(returned, weights, i, Reported) + Sum(returned, weights, i, Media))
    ensures forall budget :: Fits(calibration, returned, weights, budget, i) <==>
              Cap(EstimateBytes(calibration, Cap(Sum(returned, weights, i, Bytes)))
                  + Sum(returned, weights, i, Reported) + Sum(returned, weights, i, Media)) <= budget
  {
    hide EstimateBytes, Sum, TotalsFrom;
    TotalsAreSums(returned, weights, i);
  }

  lemma CeilingDivMeans(a: nat, b: nat, n: nat)
    requires b > 0
    ensures CeilingDiv(a, b) <= n <==> a <= n * b
  {
    var q := CeilingDiv(a, b);
    assert q * b >= a && (q - 1) * b < a;
    if q <= n {
      ProductMonotone(q, n, b);
    } else {
      ProductMonotone(n, q - 1, b);
    }
  }

  /** The least number of tokens at which four bytes each, or the measured
      bytes for the measured tokens, are enough. */
  lemma EstimateMeans(calibration: Option<Calibration>, size: nat, tokens: nat)
    requires tokens < MAX_SIZE
    ensures EstimateBytes(calibration, size) <= tokens <==>
            match calibration
            case None => size <= 4 * tokens
            case Some((measured, bytes)) =>
              if measured <= bytes then size * measured <= tokens * bytes else size <= tokens
  {
    match calibration
    case None =>
      CeilingDivMeans(size, 4, tokens);
    case Some((measured, bytes)) =>
      var m := if measured <= bytes then measured else bytes;
      CeilingDivMeans(size * m, bytes, tokens);
      if measured > bytes {
        if size <= tokens {
          ProductMonotone(size, tokens, bytes);
        } else {
          ProductMonotone(tokens + 1, size, bytes);
        }
      }
  }

  // ----- Where the recent part begins

  /** The recent part may begin here: not inside the results of a call. */
  ghost predicate Candidate(
    c: Context, messages: seq<Message>, calibration: Option<Calibration>, weights: seq<Weight>, budget: nat, i: nat
  )
    requires |weights| == |messages|
  {
    && c.from <= i < |messages| && i !in c.returned && !messages[i].Tool?
    && Fits(calibration, c.returned, weights, budget, i)
  }

  /** Walks back while the recent part fits, and keeps the last place it may
      begin. */
  method RecentBoundary(
    c: Context, messages: seq<Message>, calibration: Option<Calibration>, weights: seq<Weight>, budget: nat
  )
    returns (boundary: nat)
    requires |weights| == |messages| && c.from <= |messages|
    ensures boundary < |messages| ==>
              boundary > c.from && Candidate(c, messages, calibration, weights, budget, boundary)
    ensures boundary < |messages| ==>
              forall i | c.from <= i < boundary :: !Candidate(c, messages, calibration, weights, budget, i)
    ensures boundary >= |messages| ==> boundary == |messages|
    ensures boundary == |messages| && c.from < |messages| ==>
              || Candidate(c, messages, calibration, weights, budget, c.from)
              || forall i | c.from <= i < |messages| :: !Candidate(c, messages, calibration, weights, budget, i)
  {
    hide Cost, TotalsFrom;
    boundary := |messages|;
    var totals := Totals(0, 0, 0);
    TotalsStep(c.returned, weights, |weights|);
    var index := |messages|;
    var stopped := false;
    while index > c.from && !stopped
      invariant c.from <= index <= |messages|
      invariant !stopped ==> totals == TotalsFrom(c.returned, weights, index)
      invariant boundary < |messages| ==> Candidate(c, messages, calibration, weights, budget, boundary)
      invariant index <= boundary <= |messages|
      invariant forall i | index <= i < boundary :: !Candidate(c, messages, calibration, weights, budget, i)
      invariant stopped ==> !Fits(calibration, c.returned, weights, budget, index)
      decreases index, !stopped
    {
      index := index - 1;
      TotalsStep(c.returned, weights, index);
      if index !in c.returned {
        totals := Added(totals, weights[index]);
        if Cost(calibration, totals) > budget {
          stopped := true;
        } else if !messages[index].Tool? {
          boundary := index;
        }
      }
    }
    forall i | c.from <= i < index && stopped
      ensures !Candidate(c, messages, calibration, weights, budget, i)
    {
      LongerCostsMore(calibration, c.returned, weights, i, index);
    }
    if boundary == c.from {
      boundary := |messages|;
    }
  }

  lemma TotalsStep(returned: set<nat>, weights: seq<Weight>, i: nat)
    requires i <= |weights|
    ensures TotalsFrom(returned, weights, i) ==
            if i == |weights| then Totals(0, 0, 0)
            else if i in returned then TotalsFrom(returned, weights, i + 1)
            else Added(TotalsFrom(returned, weights, i + 1), weights[i])
  {
  }

  // ----- The next context

  ghost predicate ToolAt(messages: seq<Message>, i: nat) { i < |messages| && messages[i].Tool? }

  /** The validation of a saved context, without the sizes it measured. */
  ghost predicate Validates(c: Context, messages: seq<Message>) {
    && 0 < c.from <= |messages| && !ToolAt(messages, c.from)
    && c.measuredEnd <= |messages| && (c.output.Some? ==> c.measuredEnd <= c.output.value < |messages|)
    && (c.from > 1 ==> TrimStart(c.summary) != [])
    && c.previewUntil <= |messages| && c.previewLimit <= OUTPUT_LIMIT
    && Sorted(c.states)
    && (forall k | 0 <= k < |c.states| :: c.states[k].before <= |messages| && !ToolAt(messages, c.states[k].before))
  }

  /** Only messages of the user are ever withdrawn. */
  ghost predicate WithdrawsUsers(c: Context, messages: seq<Message>) {
    forall i | i in c.returned :: i < |messages| && messages[i].User?
  }

  ghost predicate SoundFor(c: Context, messages: seq<Message>) {
    Validates(c, messages) && WithdrawsUsers(c, messages)
  }

  /** Every result that stays has its call with it, and neither is withdrawn. */
  lemma ResultsKeepTheirCalls(c: Context, messages: seq<Message>, k: nat) returns (call: nat)
    requires SoundFor(c, messages) && Owed(messages).Some? && c.from <= k < |messages| && messages[k].Tool?
    ensures c.from <= call < k && messages[call].Assistant? && messages[k].id in Ids(messages[call].calls)
    ensures forall i | call < i <= k :: messages[i].Tool?
    ensures forall i | call <= i <= k :: i !in c.returned
  {
    hide Owed;
    call := ResultHasItsCall(messages, k);
  }

  // ----- What a request shows

  /** Where message `i` stands in a request that shows it. */
  function PlaceOf(c: Context, g: Given, messages: seq<Message>, i: nat): nat
    requires c.from <= |messages| && i < |messages|
  {
    |Head(c, g, messages)| + |Body(c, g, messages, i)| + |StatesIn(c.states, i, i + 1)|
  }

  lemma ShownAtItsPlace(c: Context, g: Given, messages: seq<Message>, i: nat)
    requires c.from <= i < |messages| && i !in c.returned
    ensures PlaceOf(c, g, messages, i) < |Projected(c, g, messages)|
    ensures Projected(c, g, messages)[PlaceOf(c, g, messages, i)] ==
            Source(messages[i], i, FormOf(c, g, messages[i], i))
  {
    hide Head, FormOf, StatesIn;
    assert Body(c, g, messages, i + 1) == Body(c, g, messages, i) + Place(c, g, messages, i);
    BodyGrows(c, g, messages, i + 1, |messages|);
  }

  lemma {:induction false} SourceOfBody(c: Context, g: Given, messages: seq<Message>, m: nat, n: nat) returns (i: nat)
    requires m <= |messages| && n < |Body(c, g, messages, m)| && Body(c, g, messages, m)[n].Source?
    ensures c.from <= i < m && i !in c.returned
    ensures n == |Body(c, g, messages, i)| + |StatesIn(c.states, i, i + 1)|
    decreases m
  {
    hide FormOf, StatesIn;
    var before := Body(c, g, messages, m - 1);
    if n < |before| {
      i := SourceOfBody(c, g, messages, m - 1, n);
    } else {
      i := m - 1;
      assert Place(c, g, messages, i)[n - |before|].Source?;
    }
  }

  /** Every message shown stands at its place. */
  lemma ShownFrom(c: Context, g: Given, messages: seq<Message>, n: nat) returns (i: nat)
    requires c.from <= |messages| && n < |Projected(c, g, messages)| && Projected(c, g, messages)[n].Source?
    ensures c.from <= i < |messages| && i !in c.returned && n == PlaceOf(c, g, messages, i)
    ensures Projected(c, g, messages)[n] == Source(messages[i], i, FormOf(c, g, messages[i], i))
  {
    var head, body := Head(c, g, messages), Body(c, g, messages, |messages|);
    var trailing := StatesIn(c.states, |messages|, |messages| + 1);
    assert forall k | 0 <= k < |head| :: !head[k].Source?;
    hide Head, Body, FormOf, StatesIn;
    i := SourceOfBody(c, g, messages, |messages|, n - |head|);
    ShownAtItsPlace(c, g, messages, i);
  }

  /** A result follows directly on the message before it. */
  lemma NextPlace(c: Context, g: Given, messages: seq<Message>, i: nat)
    requires Validates(c, messages) && c.from <= i && i + 1 < |messages| && messages[i + 1].Tool? && i !in c.returned
    ensures PlaceOf(c, g, messages, i + 1) == PlaceOf(c, g, messages, i) + 1
  {
    hide Head, FormOf, TrimStart;
    NoLaterStates(c.states, i + 1, i + 2) by {
      assert ToolAt(messages, i + 1);
    }
    assert Body(c, g, messages, i + 1) == Body(c, g, messages, i) + Place(c, g, messages, i);
  }

  lemma {:induction false} RunOfPlaces(c: Context, g: Given, messages: seq<Message>, call: nat, k: nat)
    requires Validates(c, messages) && c.from <= call <= k < |messages|
    requires forall i | call < i <= k :: messages[i].Tool?
    requires forall i | call <= i <= k :: i !in c.returned
    ensures PlaceOf(c, g, messages, k) == PlaceOf(c, g, messages, call) + (k - call)
    decreases k
  {
    hide PlaceOf, Validates;
    if call < k {
      RunOfPlaces(c, g, messages, call, k - 1);
      NextPlace(c, g, messages, k - 1);
    }
  }

  /** Every result that a request shows stands behind the call it belongs to,
      with nothing but results between them. */
  lemma ShownWithItsCall(c: Context, g: Given, messages: seq<Message>, n: nat) returns (m: nat)
    requires SoundFor(c, messages) && Owed(messages).Some? && n < |Projected(c, g, messages)|
    requires Projected(c, g, messages)[n].Source? && Projected(c, g, messages)[n].message.Tool?
    ensures var shown := Projected(c, g, messages);
            && m < n && shown[m].Source? && shown[m].message.Assistant?
            && shown[n].message.id in Ids(shown[m].message.calls)
            && forall x | m < x <= n :: shown[x].Source? && shown[x].message.Tool?
  {
    hide Projected, PlaceOf, Owed, TrimStart;
    var k := ShownFrom(c, g, messages, n);
    var call := ResultsKeepTheirCalls(c, messages, k);
    RunOfPlaces(c, g, messages, call, k);
    ShownAtItsPlace(c, g, messages, call);
    m := PlaceOf(c, g, messages, call);
    forall x | m < x <= n
      ensures Projected(c, g, messages)[x].Source? && Projected(c, g, messages)[x].message.Tool?
    {
      var i := call + (x - m);
      RunOfPlaces(c, g, messages, call, i);
      ShownAtItsPlace(c, g, messages, i);
    }
  }

  // ----- The contexts a compaction makes

  function Clamped(value: nat, low: nat, high: nat): nat
    requires low <= high
  {
    if value < low then low else if value > high then high else value
  }

  /** How much of a result a preview shows. */
  function PreviewLimit(inputBudget: nat): nat { Clamped(inputBudget / 12, 512, 2048) }

  /** Large tool results shown as previews; nothing is summarized. */
  function Previewed(c: Context, messages: seq<Message>, inputBudget: nat): Context {
    Unmeasured(c.(previewUntil := |messages|, previewLimit := PreviewLimit(inputBudget)))
  }

  /** Everything before `end` replaced by the summary. */
  function Summarized(c: Context, end: nat, inputBudget: nat, summary: string): Context {
    Unmeasured(c.(from := end, states := Visible(c.states, end), previewUntil := end,
                  previewLimit := PreviewLimit(inputBudget), summary := summary))
  }

  lemma PreviewSize(inputBudget: nat)
    ensures var limit := PreviewLimit(inputBudget);
            && 512 <= limit <= 2048 && (6144 <= inputBudget <= 24576 ==> limit == inputBudget / 12)
            && (inputBudget < 6144 ==> limit == 512) && (inputBudget > 24576 ==> limit == 2048)
  {
  }

  /** After previews were chosen every result is shown as one, until more
      messages come. */
  lemma ResultsArePreviewed(c: Context, g: Given, messages: seq<Message>, inputBudget: nat, n: nat)
    requires Validates(c, messages) && n < |Projected(Previewed(c, messages, inputBudget), g, messages)|
    requires Projected(Previewed(c, messages, inputBudget), g, messages)[n].Source?
    ensures var shown := Projected(Previewed(c, messages, inputBudget), g, messages)[n];
            shown.message.Tool? <==> shown.form.Preview?
    ensures var shown := Projected(Previewed(c, messages, inputBudget), g, messages)[n];
            shown.form.Preview? ==>
              && 512 <= shown.form.limit <= 2048
              && (6144 <= inputBudget <= 24576 ==> shown.form.limit == inputBudget / 12)
  {
    hide Projected, TrimStart, PlaceOf;
    var i := ShownFrom(Previewed(c, messages, inputBudget), g, messages, n);
    PreviewSize(inputBudget);
  }

  /** After a summary the results that are left are shown whole, and the summary
      stands before them. */
  lemma ResultsStayWhole(
    c: Context, g: Given, messages: seq<Message>, end: nat, inputBudget: nat, summary: string, n: nat
  )
    requires end <= |messages| && n < |Projected(Summarized(c, end, inputBudget, summary), g, messages)|
    requires Projected(Summarized(c, end, inputBudget, summary), g, messages)[n].Source?
    ensures var shown := Projected(Summarized(c, end, inputBudget, summary), g, messages)[n];
            shown.index >= end && (shown.message.Tool? ==> shown.form == Original)
  {
    hide Projected, PlaceOf;
    var i := ShownFrom(Summarized(c, end, inputBudget, summary), g, messages, n);
  }

  /** The summary itself is shown, once, before the conversation. */
  lemma SummaryIsShown(
    c: Context, g: Given, messages: seq<Message>, end: nat, inputBudget: nat, summary: string
  ) returns (h: nat)
    requires end <= |messages| && summary != []
    ensures var shown := Projected(Summarized(c, end, inputBudget, summary), g, messages);
            && h < |shown| && shown[h] == Summary(end, summary)
            && (forall k | 0 <= k < h :: shown[k] == Instructions || shown[k].Archive?)
            && (forall k | h < k < |shown| :: shown[k].State? || (shown[k].Source? && shown[k].index >= end))
  {
    var d := Summarized(c, end, inputBudget, summary);
    ProjectedShows(d, g, messages);
    hide Projected, Shows;
    h := SummaryComesFirst(d, g, messages, Projected(d, g, messages));
  }

  lemma SummaryComesFirst(c: Context, g: Given, messages: seq<Message>, sent: seq<Sent>) returns (h: nat)
    requires c.from <= |messages| && c.summary != [] && Shows(c, g, messages, sent)
    ensures h < |sent| && sent[h] == Summary(c.from, c.summary)
    ensures forall k | 0 <= k < h :: sent[k] == Instructions || sent[k].Archive?
    ensures forall k | h < k < |sent| :: sent[k].State? || (sent[k].Source? && sent[k].index >= c.from)
  {
    hide Tells, StartsWith;
    var size :| 0 <= size <= |sent| && StartsWith(c, g, messages, sent, size)
                && Tells(c, g, messages, |messages|, |messages| + 1, sent[size..]);
    SummaryStarts(c, g, messages, sent, size);
    h := size - 1;
    forall k | h < k < |sent|
      ensures sent[k].State? || (sent[k].Source? && sent[k].index >= c.from)
    {
      assert sent[k] == sent[size..][k - size];
      ToldIs(c, g, messages, sent[size..], k - size);
    }
  }

  lemma SummaryStarts(c: Context, g: Given, messages: seq<Message>, sent: seq<Sent>, size: nat)
    requires c.from <= |messages| && c.summary != [] && size <= |sent| && StartsWith(c, g, messages, sent, size)
    ensures 0 < size && sent[size - 1] == Summary(c.from, c.summary)
    ensures forall k | 0 <= k < size - 1 :: sent[k] == Instructions || sent[k].Archive?
  {
    assert forall k | 0 <= k < size :: sent[k] == sent[..size][k];
  }

  lemma ToldIs(c: Context, g: Given, messages: seq<Message>, sent: seq<Sent>, k: nat)
    requires Tells(c, g, messages, |messages|, |messages| + 1, sent) && k < |sent|
    ensures sent[k].State? || (sent[k].Source? && sent[k].index >= c.from)
  {
    hide ShownAs;
  }

  lemma {:induction false} VisibleKeeps(states: seq<RequestState>, from: nat, messages: seq<Message>)
    requires Sorted(states)
    requires forall k | 0 <= k < |states| :: states[k].before <= |messages| && !ToolAt(messages, states[k].before)
    ensures Sorted(Visible(states, from))
    ensures forall k | 0 <= k < |Visible(states, from)| ::
              && Visible(states, from)[k].before <= |messages|
              && !ToolAt(messages, Visible(states, from)[k].before)
    decreases |states|
  {
    if states != [] {
      var n := |states| - 1;
      VisibleKeeps(states[..n], from, messages);
      VisibleStatesAreOrdered(states[..n], from, states[n].before);
    }
  }

  /** What was measured under the old context says nothing of the new one. */
  lemma NothingMeasured(c: Context, messages: seq<Message>, end: nat, inputBudget: nat, summary: string)
    ensures Previewed(c, messages, inputBudget).measuredEnd == 0 && Previewed(c, messages, inputBudget).output == None
    ensures Summarized(c, end, inputBudget, summary).measuredEnd == 0
    ensures Summarized(c, end, inputBudget, summary).output == None
    ensures Withdrawn(c, end, |messages|).measuredEnd == 0 && Withdrawn(c, end, |messages|).output == None
  {
  }

  lemma PreviewedValidates(c: Context, messages: seq<Message>, inputBudget: nat)
    requires Validates(c, messages)
    ensures Validates(Previewed(c, messages, inputBudget), messages)
    ensures SoundFor(c, messages) ==> SoundFor(Previewed(c, messages, inputBudget), messages)
  {
  }

  lemma SummarizedValidates(c: Context, messages: seq<Message>, end: nat, inputBudget: nat, summary: string)
    requires Validates(c, messages) && 0 < end <= |messages| && !ToolAt(messages, end) && TrimStart(summary) != []
    ensures Validates(Summarized(c, end, inputBudget, summary), messages)
    ensures SoundFor(c, messages) ==> SoundFor(Summarized(c, end, inputBudget, summary), messages)
  {
    hide Visible, ToolAt;
    VisibleKeeps(c.states, end, messages);
  }

  /** Where a summary may end: at the end of the transcript, or where the recent
      part begins. */
  ghost predicate EndsSummary(
    c: Context, messages: seq<Message>, calibration: Option<Calibration>, weights: seq<Weight>, budget: nat, end: nat
  )
    requires |weights| == |messages|
  {
    && c.from < end <= |messages|
    && (end < |messages| ==> Candidate(c, messages, calibration, weights, budget, end))
    && (end < |messages| ==>
          forall i | c.from <= i < end :: !Candidate(c, messages, calibration, weights, budget, i))
  }

  lemma BoundaryIsNoResult(
    c: Context, messages: seq<Message>, calibration: Option<Calibration>, weights: seq<Weight>, budget: nat, end: nat
  )
    requires |weights| == |messages| && EndsSummary(c, messages, calibration, weights, budget, end)
    ensures !ToolAt(messages, end)
  {
    hide Fits;
  }

  // ----- While the transcript grows

  /** Every position of the context lies before the end of the transcript. */
  ghost predicate Inside(c: Context, messages: seq<Message>) {
    && SoundFor(c, messages) && c.from < |messages|
    && forall k | 0 <= k < |c.states| :: c.states[k].before < |messages|
  }

  /** Then anything may follow, results too. */
  lemma InsideStays(c: Context, messages: seq<Message>, more: seq<Message>)
    requires Inside(c, messages)
    ensures Inside(c, messages + more)
  {
    hide TrimStart;
  }

  /** A position at the end is no result's as long as no result comes next. */
  lemma ValidatesStays(c: Context, messages: seq<Message>, more: seq<Message>)
    requires Validates(c, messages) && (more != [] ==> !more[0].Tool?)
    ensures Validates(c, messages + more)
    ensures SoundFor(c, messages) ==> SoundFor(c, messages + more)
    ensures SoundFor(c, messages) && more != [] ==> Inside(c, messages + more)
  {
    hide TrimStart;
  }

  /** Anchoring the state of a request made from the whole transcript. */
  lemma AcceptedValidates(c: Context, messages: seq<Message>, state: Option<string>)
    requires Validates(c, messages)
    ensures Validates(Accepted(c, messages, state), messages)
    ensures SoundFor(c, messages) ==> SoundFor(Accepted(c, messages, state), messages)
  {
    hide TrimStart, LatestText, Retained;
  }

  /** A request that was measured counts all messages up to `end`. */
  function Observed(c: Context, end: nat): Context { c.(measuredEnd := end, output := None) }

  lemma ObservedValidates(c: Context, messages: seq<Message>)
    requires Validates(c, messages)
    ensures Validates(Observed(c, |messages|), messages)
    ensures SoundFor(c, messages) ==> SoundFor(Observed(c, |messages|), messages)
  {
    hide TrimStart;
  }

  /** The answer that follows it is counted with it. */
  lemma OutputValidates(c: Context, messages: seq<Message>, answer: Message)
    requires Validates(c, messages) && !answer.Tool?
    ensures Validates(c.(output := Some(|messages|)), messages + [answer])
    ensures SoundFor(c, messages) ==> Inside(c.(output := Some(|messages|)), messages + [answer])
  {
    hide TrimStart;
  }

  /** Withdrawing the user's messages from `from` on, under an earlier context. */
  function Withdrawn(c: Context, from: nat, end: nat): Context {
    Unmeasured(c).(returned := c.returned + Places(from, end))
  }

  function Places(from: nat, end: nat): (places: set<nat>)
    ensures forall i: nat :: i in places <==> from <= i < end
  {
    if from >= end then {} else Places(from, end - 1) + {end - 1}
  }

  lemma WithdrawnValidates(c: Context, messages: seq<Message>, from: nat)
    requires from <= |messages| && Validates(c, messages[..from])
    requires forall k | from <= k < |messages| :: messages[k].User?
    ensures Validates(Withdrawn(c, from, |messages|), messages)
    ensures SoundFor(c, messages[..from]) ==> SoundFor(Withdrawn(c, from, |messages|), messages)
  {
    hide TrimStart;
    assert messages == messages[..from] + messages[from..];
  }

  lemma InsideIsSound(c: Context, messages: seq<Message>)
    requires Inside(c, messages)
    ensures SoundFor(c, messages)
  {
  }
}
