/**
  The request as the model sees it: the projected conversation with each state
  update at the place it was first sent, then whatever this request adds.
 */
module Projection {
  import opened Strings
  import opened Transcript
  import opened Wrappers

  /** Runtime state the model saw before source message `before`. */
  datatype RequestState = RequestState(before: nat, text: string)

  /** The request context: what the projection depends on, then what the
      provider measured, up to which message, and the answer it counted. */
  datatype Context = Context(
    from: nat,
    summary: string,
    returned: set<nat>,
    previewUntil: nat,
    previewLimit: nat,
    states: seq<RequestState>,
    measuredEnd: nat,
    output: Option<nat>
  )

  /** How a source message is shown. */
  datatype Form = Original | Preview(limit: nat) | Portable

  datatype Sent =
    | Instructions
    | Archive(text: string)
    | Summary(from: nat, text: string)
    | State(text: string)
    | Source(message: Message, index: nat, form: Form)
    | Note

  /** What the model of the projection takes as given: the checkpoint of older
      user requests, and which assistant messages carry their origin. */
  datatype Given = Given(
    archive: (seq<Message>, set<nat>) -> Option<string>,
    compatibleFrom: nat,
    hasOrigin: Message -> bool
  )

  function FormOf(c: Context, g: Given, message: Message, index: nat): Form {
    if index < c.previewUntil && c.previewLimit > 0 && message.Tool? then Preview(c.previewLimit)
    else if index < g.compatibleFrom && message.Assistant? && !g.hasOrigin(message) then Portable
    else Original
  }

  /** The states `lo <= before < hi`, in the order they were sent. */
  function StatesIn(states: seq<RequestState>, lo: nat, hi: nat): (sent: seq<Sent>)
    ensures forall k | 0 <= k < |sent| :: sent[k].State?
  {
    if states == [] then []
    else
      var n := |states| - 1;
      StatesIn(states[..n], lo, hi) + if lo <= states[n].before < hi then [State(states[n].text)] else []
  }

  function VisibleStates(c: Context): (visible: seq<RequestState>) { Visible(c.states, c.from) }

  function Visible(states: seq<RequestState>, from: nat): (visible: seq<RequestState>) {
    if states == [] then []
    else
      var n := |states| - 1;
      Visible(states[..n], from) + if states[n].before >= from then [states[n]] else []
  }

  ghost predicate Sorted(states: seq<RequestState>) {
    forall j, k | 0 <= j < k < |states| :: states[j].before <= states[k].before
  }

  /** What the validation of a saved context demands of these parts. */
  ghost predicate Valid(c: Context, messages: seq<Message>) {
    && 0 < c.from <= |messages| && Sorted(c.states)
    && (forall k | 0 <= k < |c.states| :: c.states[k].before <= |messages|)
    && (forall i | i in c.returned :: i < |messages|)
  }

  function Head(c: Context, g: Given, messages: seq<Message>): seq<Sent>
    requires c.from <= |messages|
  {
    var archive := g.archive(messages[..c.from], set i | i in c.returned && i < c.from);
    [Instructions]
    + (if archive.Some? then [Archive(archive.value)] else [])
    + (if c.summary != [] then [Summary(c.from, c.summary)] else [])
  }

  /** Message `i` after the states first sent directly before it. */
  function Place(c: Context, g: Given, messages: seq<Message>, i: nat): seq<Sent>
    requires i < |messages|
  {
    StatesIn(c.states, i, i + 1)
    + if i in c.returned then [] else [Source(messages[i], i, FormOf(c, g, messages[i], i))]
  }

  /** The messages from the boundary up to `n`, each after its states. */
  function Body(c: Context, g: Given, messages: seq<Message>, n: nat): seq<Sent>
    requires n <= |messages|
  {
    if n <= c.from then [] else Body(c, g, messages, n - 1) + Place(c, g, messages, n - 1)
  }

  /** The projection: states sent after the last message come last. */
  function Projected(c: Context, g: Given, messages: seq<Message>): seq<Sent>
    requires c.from <= |messages|
  {
    Head(c, g, messages) + Body(c, g, messages, |messages|) + StatesIn(c.states, |messages|, |messages| + 1)
  }

  /** A context without what was measured. */
  function Unmeasured(c: Context): Context { c.(measuredEnd := 0, output := None) }

  /** What was measured is not shown. */
  lemma {:induction false} SameBody(c: Context, d: Context, g: Given, messages: seq<Message>, n: nat)
    requires n <= |messages| && Unmeasured(c) == Unmeasured(d)
    ensures Body(c, g, messages, n) == Body(d, g, messages, n)
    decreases n
  {
    if n > c.from {
      SameBody(c, d, g, messages, n - 1);
    }
  }

  lemma SameProjection(c: Context, d: Context, g: Given, messages: seq<Message>)
    requires c.from <= |messages| && Unmeasured(c) == Unmeasured(d)
    ensures Projected(c, g, messages) == Projected(d, g, messages)
  {
    hide Body, StatesIn;
    SameBody(c, d, g, messages, |messages|);
  }

  // ----- What a request shows

  /** Before the conversation stand the instructions, the older user requests if
      any are kept, and the summary unless it is empty. */
  ghost predicate StartsWith(c: Context, g: Given, messages: seq<Message>, sent: seq<Sent>, h: nat)
    requires c.from <= |messages| && h <= |sent|
  {
    var summary := if c.summary == [] then [] else [Summary(c.from, c.summary)];
    match g.archive(messages[..c.from], set i | i in c.returned && i < c.from)
    case Some(text) => sent[..h] == [Instructions, Archive(text)] + summary
    case None => sent[..h] == [Instructions] + summary
  }

  /** A result is cut to a preview up to a message, an answer of other origin is
      made portable up to another, and everything else is shown as it is. */
  ghost predicate ShownAs(c: Context, g: Given, sent: Sent)
    requires sent.Source?
  {
    && (sent.form.Preview? <==> sent.message.Tool? && sent.index < c.previewUntil && c.previewLimit > 0)
    && (sent.form.Preview? ==> sent.form.limit == c.previewLimit)
    && (sent.form == Portable <==>
        sent.message.Assistant? && sent.index < g.compatibleFrom && !g.hasOrigin(sent.message))
  }

  /** The state stands behind the messages it was sent behind. */
  ghost predicate StandsAt(sent: seq<Sent>, k: nat, s: RequestState) {
    && k < |sent| && sent[k] == State(s.text)
    && forall j | 0 <= j < |sent| && sent[j].Source? :: j < k <==> sent[j].index < s.before
  }

  /** Every message from the boundary up to `n` that was not withdrawn, once and
      in order. */
  ghost predicate TellsMessages(c: Context, g: Given, messages: seq<Message>, n: nat, sent: seq<Sent>)
    requires n <= |messages|
  {
    && (forall k | 0 <= k < |sent| && sent[k].Source? ::
          && c.from <= sent[k].index < n && sent[k].index !in c.returned
          && sent[k].message == messages[sent[k].index] && ShownAs(c, g, sent[k]))
    && (forall i | c.from <= i < n && i !in c.returned ::
          exists k | 0 <= k < |sent| :: sent[k].Source? && sent[k].index == i)
    && (forall j, k | 0 <= j < k < |sent| && sent[j].Source? && sent[k].Source? :: sent[j].index < sent[k].index)
  }

  /** Every state sent from the boundary up to message `last`, in its place, and
      nothing else beside the messages. */
  ghost predicate TellsStates(c: Context, last: nat, sent: seq<Sent>) {
    && (forall k | 0 <= k < |sent| && !sent[k].Source? ::
          exists s | s in c.states :: c.from <= s.before < last && StandsAt(sent, k, s))
    && (forall s | s in c.states && c.from <= s.before < last :: exists k: nat :: StandsAt(sent, k, s))
  }

  ghost predicate Tells(c: Context, g: Given, messages: seq<Message>, n: nat, last: nat, sent: seq<Sent>)
    requires n <= |messages|
  {
    TellsMessages(c, g, messages, n, sent) && TellsStates(c, last, sent)
  }

  /** A request shows what it starts with and then tells the conversation. */
  ghost predicate Shows(c: Context, g: Given, messages: seq<Message>, sent: seq<Sent>)
    requires c.from <= |messages|
  {
    exists h | 0 <= h <= |sent| ::
      StartsWith(c, g, messages, sent, h) && Tells(c, g, messages, |messages|, |messages| + 1, sent[h..])
  }

  lemma {:induction false} StatesInMeans(states: seq<RequestState>, lo: nat, hi: nat)
    ensures forall s | s in states && lo <= s.before < hi :: State(s.text) in StatesIn(states, lo, hi)
    ensures forall x | x in StatesIn(states, lo, hi) ::
              exists s | s in states :: lo <= s.before < hi && x == State(s.text)
    decreases |states|
  {
    if states != [] {
      var n := |states| - 1;
      StatesInMeans(states[..n], lo, hi);
      assert states == states[..n] + [states[n]];
    }
  }

  lemma StaysAt(sent: seq<Sent>, more: seq<Sent>, k: nat, s: RequestState)
    requires StandsAt(sent, k, s)
    requires forall x | x in more && x.Source? :: x.index >= s.before
    ensures StandsAt(sent + more, k, s)
  {
    var all := sent + more;
    forall j | 0 <= j < |all| && all[j].Source?
      ensures j < k <==> all[j].index < s.before
    {
      if j >= |sent| {
        assert all[j] in more;
      }
    }
  }

  /** The states sent before message `n` come next. */
  lemma MoreStates(c: Context, g: Given, messages: seq<Message>, n: nat, sent: seq<Sent>)
    requires c.from <= n <= |messages| && Tells(c, g, messages, n, n, sent)
    ensures Tells(c, g, messages, n, n + 1, sent + StatesIn(c.states, n, n + 1))
  {
    hide StatesIn, TellsMessages, TellsStates;
    SameMessages(c, g, messages, n, sent, StatesIn(c.states, n, n + 1));
    assert forall k | 0 <= k < |sent| && sent[k].Source? :: sent[k].index < n by {
      assert TellsMessages(c, g, messages, n, sent);
      IndexBelow(c, g, messages, n, sent);
    }
    StatesMore(c, n, sent);
  }

  lemma IndexBelow(c: Context, g: Given, messages: seq<Message>, n: nat, sent: seq<Sent>)
    requires n <= |messages| && TellsMessages(c, g, messages, n, sent)
    ensures forall k | 0 <= k < |sent| && sent[k].Source? :: sent[k].index < n
  {
    hide ShownAs;
  }

  lemma SameMessages(c: Context, g: Given, messages: seq<Message>, n: nat, sent: seq<Sent>, more: seq<Sent>)
    requires n <= |messages| && TellsMessages(c, g, messages, n, sent)
    requires forall k | 0 <= k < |more| :: more[k].State?
    ensures TellsMessages(c, g, messages, n, sent + more)
  {
    hide ShownAs;
    var all := sent + more;
    assert forall k | 0 <= k < |sent| :: all[k] == sent[k];
    assert forall k | |sent| <= k < |all| :: all[k].State?;
  }

  lemma StatesMore(c: Context, n: nat, sent: seq<Sent>)
    requires c.from <= n && TellsStates(c, n, sent)
    requires forall k | 0 <= k < |sent| && sent[k].Source? :: sent[k].index < n
    ensures TellsStates(c, n + 1, sent + StatesIn(c.states, n, n + 1))
  {
    hide StatesIn, StandsAt;
    var more := StatesIn(c.states, n, n + 1);
    var all := sent + more;
    StatesInMeans(c.states, n, n + 1);
    forall k | 0 <= k < |all| && !all[k].Source?
      ensures exists s | s in c.states :: c.from <= s.before < n + 1 && StandsAt(all, k, s)
    {
      StateComesFrom(c, n, sent, k);
    }
    forall s | s in c.states && c.from <= s.before < n + 1
      ensures exists k: nat :: StandsAt(all, k, s)
    {
      if s.before == n {
        var i :| 0 <= i < |more| && more[i] == State(s.text);
        StandsBehind(sent, more, i, s);
      } else {
        var k: nat :| StandsAt(sent, k, s);
        StaysAt(sent, more, k, s);
      }
    }
  }

  lemma StateComesFrom(c: Context, n: nat, sent: seq<Sent>, k: nat)
    requires c.from <= n && TellsStates(c, n, sent)
    requires forall k | 0 <= k < |sent| && sent[k].Source? :: sent[k].index < n
    requires var all := sent + StatesIn(c.states, n, n + 1); k < |all| && !all[k].Source?
    ensures exists s | s in c.states ::
              c.from <= s.before < n + 1 && StandsAt(sent + StatesIn(c.states, n, n + 1), k, s)
  {
    hide StatesIn, StandsAt;
    var more := StatesIn(c.states, n, n + 1);
    if k < |sent| {
      assert (sent + more)[k] == sent[k];
      var s :| s in c.states && c.from <= s.before < n && StandsAt(sent, k, s);
      StaysAt(sent, more, k, s);
    } else {
      StatesInMeans(c.states, n, n + 1);
      assert (sent + more)[k] == more[k - |sent|];
      assert more[k - |sent|] in more;
      var s :| s in c.states && n <= s.before < n + 1 && more[k - |sent|] == State(s.text);
      StandsBehind(sent, more, k - |sent|, s);
    }
  }

  lemma StandsBehind(sent: seq<Sent>, more: seq<Sent>, i: nat, s: RequestState)
    requires i < |more| && more[i] == State(s.text) && forall k | 0 <= k < |more| :: more[k].State?
    requires forall k | 0 <= k < |sent| && sent[k].Source? :: sent[k].index < s.before
    ensures StandsAt(sent + more, |sent| + i, s)
  {
    var all := sent + more;
    assert forall k | |sent| <= k < |all| :: all[k] == more[k - |sent|];
  }

  /** Then message `n`, unless it was withdrawn. */
  lemma MoreSources(c: Context, g: Given, messages: seq<Message>, n: nat, sent: seq<Sent>)
    requires c.from <= n < |messages| && Tells(c, g, messages, n, n + 1, sent)
    ensures Tells(c, g, messages, n + 1, n + 1,
                  sent + if n in c.returned then [] else [Source(messages[n], n, FormOf(c, g, messages[n], n))])
  {
    hide TellsStates;
    if n in c.returned {
      assert sent + [] == sent;
    } else {
      var next := Source(messages[n], n, FormOf(c, g, messages[n], n));
      assert ShownAs(c, g, next);
      hide TellsMessages, ShownAs, FormOf;
      OneMoreSource(c, g, messages, n, sent, next);
      SameStates(c, n, sent, next);
    }
  }

  lemma OneMoreSource(c: Context, g: Given, messages: seq<Message>, n: nat, sent: seq<Sent>, next: Sent)
    requires c.from <= n < |messages| && TellsMessages(c, g, messages, n, sent) && n !in c.returned
    requires next.Source? && next.index == n && next.message == messages[n] && ShownAs(c, g, next)
    ensures TellsMessages(c, g, messages, n + 1, sent + [next])
  {
    hide ShownAs;
    var all := sent + [next];
    assert all[|sent|] == next && forall k | 0 <= k < |sent| :: all[k] == sent[k];
  }

  lemma SameStates(c: Context, n: nat, sent: seq<Sent>, next: Sent)
    requires TellsStates(c, n + 1, sent) && next.Source? && next.index == n
    ensures TellsStates(c, n + 1, sent + [next])
  {
    var all := sent + [next];
    forall k: nat, s: RequestState | StandsAt(sent, k, s) && s.before <= n
      ensures StandsAt(all, k, s)
    {
      StaysAt(sent, [next], k, s);
    }
    hide StandsAt;
    assert all[|sent|] == next && forall k | 0 <= k < |sent| :: all[k] == sent[k];
    forall s | s in c.states && c.from <= s.before < n + 1
      ensures exists k: nat :: StandsAt(all, k, s)
    {
      var k: nat :| StandsAt(sent, k, s);
    }
  }

  lemma {:induction false} BodyTells(c: Context, g: Given, messages: seq<Message>, n: nat)
    requires c.from <= n <= |messages|
    ensures Tells(c, g, messages, n, n, Body(c, g, messages, n))
    decreases n
  {
    hide Tells, StatesIn, FormOf;
    if n == c.from {
      NothingTold(c, g, messages);
    } else {
      var before := Body(c, g, messages, n - 1);
      BodyTells(c, g, messages, n - 1);
      MoreStates(c, g, messages, n - 1, before);
      MoreSources(c, g, messages, n - 1, before + StatesIn(c.states, n - 1, n));
      var form := FormOf(c, g, messages[n - 1], n - 1);
      var shown := if n - 1 in c.returned then [] else [Source(messages[n - 1], n - 1, form)];
      Regroup(before, StatesIn(c.states, n - 1, n), shown);
    }
  }

  lemma Regroup(a: seq<Sent>, b: seq<Sent>, d: seq<Sent>)
    ensures a + b + d == a + (b + d)
  {
  }

  lemma NothingTold(c: Context, g: Given, messages: seq<Message>)
    requires c.from <= |messages|
    ensures Tells(c, g, messages, c.from, c.from, [])
  {
  }

  lemma ProjectedShows(c: Context, g: Given, messages: seq<Message>)
    requires c.from <= |messages|
    ensures Shows(c, g, messages, Projected(c, g, messages))
  {
    hide Tells, StatesIn, Body;
    var n, head := |messages|, Head(c, g, messages);
    BodyTells(c, g, messages, n);
    MoreStates(c, g, messages, n, Body(c, g, messages, n));
    var tail := Body(c, g, messages, n) + StatesIn(c.states, n, n + 1);
    var sent := Projected(c, g, messages);
    assert sent[..|head|] == head && sent[|head|..] == tail;
    assert StartsWith(c, g, messages, sent, |head|);
  }

  // ----- The loop that builds it

  lemma {:induction false} NoLaterStates(states: seq<RequestState>, lo: nat, hi: nat)
    requires forall k | 0 <= k < |states| :: !(lo <= states[k].before < hi)
    ensures StatesIn(states, lo, hi) == []
    decreases |states|
  {
    if states != [] {
      NoLaterStates(states[..|states| - 1], lo, hi);
    }
  }

  function Texts(states: seq<RequestState>): (sent: seq<Sent>)
    ensures |sent| == |states| && forall k | 0 <= k < |states| :: sent[k] == State(states[k].text)
  {
    seq(|states|, k requires 0 <= k < |states| => State(states[k].text))
  }

  lemma {:induction false} VisibleStatesAreSent(states: seq<RequestState>, from: nat, lo: nat, hi: nat)
    requires from <= lo
    ensures StatesIn(Visible(states, from), lo, hi) == StatesIn(states, lo, hi)
    decreases |states|
  {
    if states != [] {
      var n := |states| - 1;
      VisibleStatesAreSent(states[..n], from, lo, hi);
      OneMoreState(Visible(states[..n], from), states[n], lo, hi);
      assert Visible(states[..n], from) + [] == Visible(states[..n], from);
    }
  }

  lemma OneMoreState(states: seq<RequestState>, s: RequestState, lo: nat, hi: nat)
    ensures StatesIn(states + [s], lo, hi) ==
            StatesIn(states, lo, hi) + if lo <= s.before < hi then [State(s.text)] else []
  {
    assert (states + [s])[..|states|] == states;
  }

  /** The visible states keep their order and bounds. */
  lemma {:induction false} VisibleStatesAreOrdered(states: seq<RequestState>, from: nat, last: nat)
    requires Sorted(states) && forall k | 0 <= k < |states| :: states[k].before <= last
    ensures Sorted(Visible(states, from))
    ensures forall k | 0 <= k < |Visible(states, from)| :: from <= Visible(states, from)[k].before <= last
    decreases |states|
  {
    if states != [] {
      var n := |states| - 1;
      hide Sorted;
      SortedPrefix(states);
      VisibleStatesAreOrdered(states[..n], from, states[n].before);
      SortedWith(Visible(states[..n], from), states[n]);
    } else {
      assert Sorted([]);
    }
  }

  lemma SortedPrefix(states: seq<RequestState>)
    requires Sorted(states) && states != []
    ensures var n := |states| - 1;
            Sorted(states[..n]) && forall k | 0 <= k < n :: states[..n][k].before <= states[n].before
  {
  }

  lemma SortedWith(states: seq<RequestState>, s: RequestState)
    requires Sorted(states) && forall k | 0 <= k < |states| :: states[k].before <= s.before
    ensures Sorted(states + [s]) && Sorted(states + [])
  {
    assert states + [] == states;
  }

  /** In a sorted list the states of one range are neighbours. */
  lemma {:induction false} StatesAreNeighbours(states: seq<RequestState>, p: nat, q: nat, lo: nat, hi: nat)
    requires p <= q <= |states|
    requires forall k | 0 <= k < p :: states[k].before < lo
    requires forall k | p <= k < q :: lo <= states[k].before < hi
    requires forall k | q <= k < |states| :: hi <= states[k].before
    ensures StatesIn(states, lo, hi) == Texts(states[p..q])
    decreases |states|
  {
    hide Texts, StatesIn;
    if p == q {
      NoLaterStates(states, lo, hi);
      assert states[p..q] == [];
    } else {
      var n := |states| - 1;
      LastState(states, lo, hi);
      if q < |states| {
        StatesAreNeighbours(states[..n], p, q, lo, hi);
        assert states[..n][p..q] == states[p..q];
      } else {
        StatesAreNeighbours(states[..n], p, n, lo, hi);
        LastOfSlice(states, p);
        OneMoreText(states[p..n], states[n]);
      }
    }
  }

  lemma LastState(states: seq<RequestState>, lo: nat, hi: nat)
    requires states != []
    ensures var n := |states| - 1;
            StatesIn(states, lo, hi)
            == StatesIn(states[..n], lo, hi) + if lo <= states[n].before < hi then [State(states[n].text)] else []
  {
  }

  lemma LastOfSlice(states: seq<RequestState>, p: nat)
    requires p < |states|
    ensures var n := |states| - 1;
            states[..n][p..n] == states[p..n] && states[p..|states|] == states[p..n] + [states[n]]
  {
  }

  lemma OneMoreText(states: seq<RequestState>, s: RequestState)
    ensures Texts(states + [s]) == Texts(states) + [State(s.text)]
  {
  }

  /** Sends the states due before message `index`. */
  method SendStates(visible: seq<RequestState>, first: nat, index: nat) returns (sent: seq<Sent>, next: nat)
    requires first <= |visible| && Sorted(visible)
    requires forall k | first <= k < |visible| :: index <= visible[k].before
    requires forall k | 0 <= k < first :: visible[k].before < index
    ensures first <= next <= |visible| && sent == StatesIn(visible, index, index + 1)
    ensures forall k | next <= k < |visible| :: index + 1 <= visible[k].before
    ensures forall k | 0 <= k < next :: visible[k].before < index + 1
  {
    hide StatesIn;
    sent, next := [], first;
    while next < |visible| && visible[next].before <= index
      invariant first <= next <= |visible| && sent == Texts(visible[first..next])
      invariant forall k | 0 <= k < next :: visible[k].before < index + 1
    {
      assert visible[first..next + 1] == visible[first..next] + [visible[next]];
      sent := sent + [State(visible[next].text)];
      next := next + 1;
    }
    StatesAreNeighbours(visible, first, next, index, index + 1);
  }

  /** Builds the projection in one pass over messages and states. */
  method Project(c: Context, g: Given, messages: seq<Message>) returns (result: seq<Sent>)
    requires Valid(c, messages)
    ensures Shows(c, g, messages, result)
    ensures result == Projected(c, g, messages)
  {
    hide Head, FormOf, StatesIn, Visible, Shows;
    ProjectedShows(c, g, messages);
    var visible := VisibleStates(c);
    VisibleStatesAreOrdered(c.states, c.from, |messages|);
    result := Head(c, g, messages);
    var next := 0;
    for index := c.from to |messages|
      invariant 0 <= next <= |visible| && result == Head(c, g, messages) + Body(c, g, messages, index)
      invariant forall k | 0 <= k < next :: visible[k].before < index
      invariant forall k | next <= k < |visible| :: index <= visible[k].before
    {
      var sent;
      sent, next := SendStates(visible, next, index);
      VisibleStatesAreSent(c.states, c.from, index, index + 1);
      var form := FormOf(c, g, messages[index], index);
      var shown := if index in c.returned then [] else [Source(messages[index], index, form)];
      assert sent + shown == Place(c, g, messages, index);
      result := result + (sent + shown);
    }
    result := result + Texts(visible[next..]);
    TrailingStates(c, messages, visible, next);
  }

  lemma TrailingStates(c: Context, messages: seq<Message>, visible: seq<RequestState>, next: nat)
    requires Valid(c, messages) && visible == Visible(c.states, c.from) && next <= |visible|
    requires forall k | 0 <= k < next :: visible[k].before < |messages|
    requires forall k | next <= k < |visible| :: |messages| <= visible[k].before
    ensures Texts(visible[next..]) == StatesIn(c.states, |messages|, |messages| + 1)
  {
    hide StatesIn, Visible, Texts, Sorted;
    VisibleStatesAreSent(c.states, c.from, |messages|, |messages| + 1);
    VisibleStatesAreOrdered(c.states, c.from, |messages|);
    StatesAreNeighbours(visible, next, |visible|, |messages|, |messages| + 1);
    assert visible[next..|visible|] == visible[next..];
  }

  // ----- Requests

  /** A request that ends in an answer, or says nothing yet, gets a user turn. */
  predicate NeedsNote(projected: seq<Sent>) {
    projected != [] && match projected[|projected| - 1]
    case Instructions => true
    case Source(Assistant(calls), _, _) => calls == []
    case _ => false
  }

  /** The request with the state it newly sends. */
  function Request(c: Context, g: Given, messages: seq<Message>, state: Option<string>): seq<Sent>
    requires c.from <= |messages|
  {
    var projected := Projected(c, g, messages) + if state.Some? then [State(state.value)] else [];
    projected + if NeedsNote(projected) then [Note] else []
  }

  function LatestText(c: Context): Option<string> {
    var visible := VisibleStates(c);
    if visible == [] then None else Some(visible[|visible| - 1].text)
  }

  function Retained(states: seq<RequestState>, before: nat): (kept: seq<RequestState>)
    ensures (forall k | 0 <= k < |states| :: states[k].before <= before) ==> kept == states
  {
    if states == [] then []
    else
      var n := |states| - 1;
      Retained(states[..n], before) + if states[n].before <= before then [states[n]] else []
  }

  /** Keeps an accepted state at the place it was sent, unless it is the state
      already visible. */
  function Anchored(c: Context, before: nat, text: string): Context {
    if LatestText(c) == Some(text) then c
    else c.(states := Retained(c.states, before) + [RequestState(before, text)])
  }

  function Accepted(c: Context, messages: seq<Message>, state: Option<string>): Context {
    match state
    case None => c
    case Some(text) => Anchored(c, |messages|, text)
  }

  lemma AcceptedIsValid(c: Context, messages: seq<Message>, state: Option<string>, more: seq<Message>)
    requires Valid(c, messages)
    ensures Valid(Accepted(c, messages, state), messages + more)
  {
    hide LatestText, Retained;
  }

  function StatesOf(sent: seq<Sent>): seq<Sent> {
    if sent == [] then []
    else StatesOf(sent[..|sent| - 1]) + if sent[|sent| - 1].State? then [sent[|sent| - 1]] else []
  }

  lemma {:induction false} StatesOfBoth(a: seq<Sent>, b: seq<Sent>)
    ensures StatesOf(a + b) == StatesOf(a) + StatesOf(b)
    decreases |b|
  {
    if b == [] {
      assert a + b == a;
    } else {
      StatesOfBoth(a, b[..|b| - 1]);
      assert (a + b)[..|a + b| - 1] == a + b[..|b| - 1];
    }
  }

  lemma {:induction false} AllStates(sent: seq<Sent>)
    requires forall k | 0 <= k < |sent| :: sent[k].State?
    ensures StatesOf(sent) == sent
    decreases |sent|
  {
    if sent != [] {
      AllStates(sent[..|sent| - 1]);
    }
  }

  lemma {:induction false} NoStates(sent: seq<Sent>)
    requires forall k | 0 <= k < |sent| :: !sent[k].State?
    ensures StatesOf(sent) == []
    decreases |sent|
  {
    if sent != [] {
      NoStates(sent[..|sent| - 1]);
    }
  }

  lemma {:induction false} NextStates(states: seq<RequestState>, lo: nat, mid: nat, hi: nat)
    requires Sorted(states) && lo <= mid <= hi
    ensures StatesIn(states, lo, hi) == StatesIn(states, lo, mid) + StatesIn(states, mid, hi)
    decreases |states|
  {
    if states != [] {
      var n := |states| - 1;
      NextStates(states[..n], lo, mid, hi);
      if states[n].before < mid {
        NoLaterStates(states[..n], mid, hi);
      }
    }
  }

  lemma {:induction false} VisibleTexts(states: seq<RequestState>, from: nat, last: nat)
    requires forall k | 0 <= k < |states| :: states[k].before < last
    ensures StatesIn(states, from, last) == Texts(Visible(states, from))
    decreases |states|
  {
    hide Texts;
    if states == [] {
      assert Texts([]) == [];
    } else {
      var n := |states| - 1;
      VisibleTexts(states[..n], from, last);
      OneMoreText(Visible(states[..n], from), states[n]);
    }
  }

  lemma {:induction false} StatesOfBody(c: Context, g: Given, messages: seq<Message>, n: nat)
    requires c.from <= n <= |messages| && Sorted(c.states)
    ensures StatesOf(Body(c, g, messages, n)) == StatesIn(c.states, c.from, n)
    decreases n
  {
    hide FormOf, StatesIn, StatesOf;
    if n == c.from {
      NoStates([]);
      NoLaterStates(c.states, n, n);
    } else {
      var due := StatesIn(c.states, n - 1, n);
      var shown := if n - 1 in c.returned then []
                   else [Source(messages[n - 1], n - 1, FormOf(c, g, messages[n - 1], n - 1))];
      StatesOfBody(c, g, messages, n - 1);
      StatesOfBoth(Body(c, g, messages, n - 1), due + shown);
      StatesOfBoth(due, shown);
      AllStates(due);
      NoStates(shown);
      NextStates(c.states, c.from, n - 1, n);
    }
  }

  /** A request shows the visible states, each once and in the order they were
      sent. */
  lemma StatesShown(c: Context, g: Given, messages: seq<Message>)
    requires Valid(c, messages)
    ensures StatesOf(Projected(c, g, messages)) == Texts(VisibleStates(c))
  {
    hide Head, Body, StatesIn, StatesOf, Texts, Visible;
    var n := |messages|;
    HeadHasNoStates(c, g, messages);
    StatesOfBody(c, g, messages, n);
    AllStates(StatesIn(c.states, n, n + 1));
    ThreeParts(Head(c, g, messages), Body(c, g, messages, n), StatesIn(c.states, n, n + 1));
    NextStates(c.states, c.from, n, n + 1);
    VisibleTexts(c.states, c.from, n + 1);
  }

  lemma HeadHasNoStates(c: Context, g: Given, messages: seq<Message>)
    requires c.from <= |messages|
    ensures StatesOf(Head(c, g, messages)) == []
  {
    hide StatesOf;
    NoStates(Head(c, g, messages));
  }

  lemma ThreeParts(a: seq<Sent>, b: seq<Sent>, d: seq<Sent>)
    requires StatesOf(a) == []
    ensures StatesOf(a + b + d) == StatesOf(b) + StatesOf(d)
  {
    hide StatesOf;
    StatesOfBoth(a + b, d);
    StatesOfBoth(a, b);
    assert [] + StatesOf(b) == StatesOf(b);
  }

  /** What a request sends is the last state the next one shows. */
  lemma AcceptedIsShownLast(c: Context, g: Given, messages: seq<Message>, text: string)
    requires Valid(c, messages)
    ensures var shown := StatesOf(Projected(Accepted(c, messages, Some(text)), g, messages));
            shown != [] && shown[|shown| - 1] == State(text)
  {
    hide Projected, StatesOf, Visible;
    AcceptedIsValid(c, messages, Some(text), []);
    assert messages + [] == messages;
    StatesShown(Accepted(c, messages, Some(text)), g, messages);
    VisibleLast(c.states, c.from, RequestState(|messages|, text));
  }

  lemma VisibleLast(states: seq<RequestState>, from: nat, s: RequestState)
    requires s.before >= from
    ensures Visible(states + [s], from) == Visible(states, from) + [s]
  {
    assert (states + [s])[..|states|] == states;
  }

  /** A request is the projection, its new state and, where it would end in an
      answer or say nothing, the note of a user turn. */
  lemma RequestMeans(c: Context, g: Given, messages: seq<Message>, state: Option<string>)
    requires Valid(c, messages)
    ensures var projected, request := Projected(c, g, messages), Request(c, g, messages, state);
            var last := projected[|projected| - 1];
            if state.Some? then request == projected + [State(state.value)]
            else if last == Instructions || (last.Source? && last.message == Assistant([]))
            then request == projected + [Note]
            else request == projected
  {
    var projected := Projected(c, g, messages);
    assert projected[0] == Instructions;
    assert projected + [] == projected;
    hide Projected;
    if state.Some? {
      assert projected + [State(state.value)] + [] == projected + [State(state.value)];
    }
  }

  // ----- Requests grow by extension only

  lemma {:induction false} BodyOfPrefix(
    c: Context, d: Context, g: Given, messages: seq<Message>, more: seq<Message>, n: nat
  )
    requires n <= |messages| && c.states <= d.states && d == c.(states := d.states)
    requires forall k | |c.states| <= k < |d.states| :: d.states[k].before >= |messages|
    ensures Body(d, g, messages + more, n) == Body(c, g, messages, n)
  {
    if n > c.from {
      BodyOfPrefix(c, d, g, messages, more, n - 1);
      AddedStates(c.states, d.states, n - 1, n);
    }
  }

  lemma {:induction false} AddedStates(states: seq<RequestState>, longer: seq<RequestState>, lo: nat, hi: nat)
    requires states <= longer
    requires forall k | |states| <= k < |longer| :: longer[k].before >= hi
    ensures StatesIn(longer, lo, hi) == StatesIn(states, lo, hi)
    decreases |longer|
  {
    if |longer| > |states| {
      AddedStates(states, longer[..|longer| - 1], lo, hi);
    } else {
      assert longer == states;
    }
  }

  lemma {:induction false} BodyGrows(c: Context, g: Given, messages: seq<Message>, n: nat, k: nat)
    requires n <= k <= |messages|
    ensures Body(c, g, messages, n) <= Body(c, g, messages, k)
    decreases k
  {
    hide Place;
    if n < k {
      BodyGrows(c, g, messages, n, k - 1);
    }
  }

  /** What a request sends before its own state, in any later projection. */
  ghost function Sending(c: Context, g: Given, messages: seq<Message>, states: seq<RequestState>): seq<Sent>
    requires c.from <= |messages|
  {
    Head(c, g, messages) + Body(c, g, messages, |messages|) + StatesIn(states, |messages|, |messages| + 1)
  }

  lemma LaterProjection(c: Context, d: Context, g: Given, messages: seq<Message>, more: seq<Message>)
    requires Valid(c, messages) && c.states <= d.states && d == c.(states := d.states)
    requires forall k | |c.states| <= k < |d.states| :: d.states[k].before >= |messages|
    ensures Sending(c, g, messages, d.states) <= Projected(d, g, messages + more)
  {
    var n, all := |messages|, messages + more;
    assert Head(d, g, all) == Head(c, g, all);
    HeadOfPrefix(c, g, messages, more);
    BodyOfPrefix(c, d, g, messages, more, n);
    hide Head, Body, StatesIn, FormOf;
    if more != [] {
      StatesInBody(d, g, all, n);
      Behind(Head(d, g, all), Body(d, g, all, n), StatesIn(d.states, n, n + 1), Body(d, g, all, |all|));
    } else {
      assert all == messages;
    }
  }

  /** What was sent last before message `n` stays before it. */
  lemma StatesInBody(c: Context, g: Given, messages: seq<Message>, n: nat)
    requires c.from <= n < |messages|
    ensures Body(c, g, messages, n) + StatesIn(c.states, n, n + 1) <= Body(c, g, messages, |messages|)
  {
    hide StatesIn, FormOf;
    BodyGrows(c, g, messages, n + 1, |messages|);
    assert Body(c, g, messages, n + 1) == Body(c, g, messages, n) + Place(c, g, messages, n);
  }

  lemma Behind(head: seq<Sent>, body: seq<Sent>, states: seq<Sent>, longer: seq<Sent>)
    requires body + states <= longer
    ensures head + body + states <= head + longer
  {
    assert head + longer == head + (body + states) + longer[|body + states|..];
  }

  /** The request stays as it was sent: it carries no note of its own, and its
      new state differs from the state already visible. */
  predicate Fixed(c: Context, g: Given, messages: seq<Message>, state: Option<string>)
    requires c.from <= |messages|
  {
    match state
    case None => !NeedsNote(Projected(c, g, messages))
    case Some(text) => LatestText(c) != Some(text)
  }

  lemma RequestExtends(
    c: Context, g: Given, messages: seq<Message>, state: Option<string>, more: seq<Message>
  )
    requires Valid(c, messages) && Fixed(c, g, messages, state)
    ensures Request(c, g, messages, state) <= Projected(Accepted(c, messages, state), g, messages + more)
  {
    hide Head, Body, LatestText, StatesIn;
    var d := Accepted(c, messages, state);
    LaterProjection(c, d, g, messages, more);
    if state.Some? {
      OneMoreState(c.states, RequestState(|messages|, state.value), |messages|, |messages| + 1);
    } else {
      assert Projected(c, g, messages) + [] == Projected(c, g, messages);
    }
  }

  /** Whatever is appended and whatever is sent later, this request is the
      beginning of the next one. */
  ghost predicate AlwaysExtended(c: Context, g: Given, messages: seq<Message>, state: Option<string>)
    requires Valid(c, messages)
  {
    forall more: seq<Message>, later: Option<string> ::
      Request(c, g, messages, state) <= Request(Accepted(c, messages, state), g, messages + more, later)
  }

  /** After a user message the projection goes on with that message. */
  lemma NextIsUser(c: Context, g: Given, messages: seq<Message>, user: Message)
    requires Valid(c, messages) && user.User?
    ensures var n := |Projected(c, g, messages)|;
            var later := Projected(c, g, messages + [user]);
            |later| == n + 1 && later[n].Source?
  {
    hide Head, FormOf;
    var n, all := |messages|, messages + [user];
    assert all[..c.from] == messages[..c.from];
    assert Head(c, g, all) == Head(c, g, messages) by {
      HeadOfPrefix(c, g, messages, [user]);
    }
    BodyOfPrefix(c, c, g, messages, [user], n);
    NoLaterStates(c.states, n + 1, n + 2);
    assert Body(c, g, all, n + 1) == Body(c, g, all, n) + Place(c, g, all, n);
  }

  lemma HeadOfPrefix(c: Context, g: Given, messages: seq<Message>, more: seq<Message>)
    requires c.from <= |messages|
    ensures Head(c, g, messages + more) == Head(c, g, messages)
  {
    assert (messages + more)[..c.from] == messages[..c.from];
  }

  /** Requests grow by extension exactly while nothing request-only is sent. */
  lemma ExtendsExactlyWhenFixed(c: Context, g: Given, messages: seq<Message>, state: Option<string>, user: Message)
    requires Valid(c, messages) && user.User?
    ensures AlwaysExtended(c, g, messages, state) <==> Fixed(c, g, messages, state)
  {
    hide Projected, LatestText;
    if Fixed(c, g, messages, state) {
      forall more: seq<Message>, later: Option<string>
        ensures Request(c, g, messages, state) <= Request(Accepted(c, messages, state), g, messages + more, later)
      {
        RequestExtends(c, g, messages, state, more);
      }
    } else {
      NextIsUser(c, g, messages, user);
      var now, next := Projected(c, g, messages), Projected(c, g, messages + [user]);
      assert now + [] == now && next + [] == next;
      assert !Request(c, g, messages, state)[|now|].Source?;
      assert Request(c, g, messages + [user], None)[|now|].Source?;
      assert !(Request(c, g, messages, state) <= Request(Accepted(c, messages, state), g, messages + [user], None));
    }
  }

  // ----- Whole runs of requests

  /** One accepted request: what joined the transcript before it, and the state
      it newly sent. */
  datatype Round = Round(more: seq<Message>, state: Option<string>)

  /** The context after a round: it stays valid for the longer transcript. */
  ghost function AfterRound(c: Context, messages: seq<Message>, round: Round): (after: Context)
    requires Valid(c, messages)
    ensures Valid(after, messages + round.more)
  {
    AcceptedIsValid(c, messages, None, round.more);
    AcceptedIsValid(c, messages + round.more, round.state, []);
    assert messages + round.more + [] == messages + round.more;
    Accepted(c, messages + round.more, round.state)
  }

  ghost function RequestsOf(
    c: Context, g: Given, messages: seq<Message>, rounds: seq<Round>
  ): (requests: seq<seq<Sent>>)
    requires Valid(c, messages)
    ensures |requests| == |rounds|
    decreases |rounds|
  {
    if rounds == [] then []
    else
      var now := messages + rounds[0].more;
      [Request(c, g, now, rounds[0].state)] + RequestsOf(AfterRound(c, messages, rounds[0]), g, now, rounds[1..])
  }

  ghost predicate AllFixed(c: Context, g: Given, messages: seq<Message>, rounds: seq<Round>)
    requires Valid(c, messages)
    decreases |rounds|
  {
    rounds == [] ||
    var now := messages + rounds[0].more;
    && Fixed(c, g, now, rounds[0].state)
    && AllFixed(AfterRound(c, messages, rounds[0]), g, now, rounds[1..])
  }

  ghost predicate Growing(requests: seq<seq<Sent>>) {
    forall i, j | 0 <= i <= j < |requests| :: requests[i] <= requests[j]
  }

  lemma GrowingFrom(first: seq<Sent>, rest: seq<seq<Sent>>)
    requires Growing(rest) && (rest != [] ==> first <= rest[0])
    ensures Growing([first] + rest)
  {
    forall i, j | 0 <= i <= j < |[first] + rest|
      ensures ([first] + rest)[i] <= ([first] + rest)[j]
    {
      if i == 0 < j {
        assert rest[0] <= rest[j - 1];
      } else if 0 < i {
        assert rest[i - 1] <= rest[j - 1];
      }
    }
  }

  /** Over a run without request-only notes every request begins with all the
      earlier ones. */
  lemma {:induction false} RequestsGrow(c: Context, g: Given, messages: seq<Message>, rounds: seq<Round>)
    requires Valid(c, messages) && AllFixed(c, g, messages, rounds)
    ensures Growing(RequestsOf(c, g, messages, rounds))
    decreases |rounds|
  {
    hide Fixed, Request, AfterRound;
    if rounds != [] {
      var now := messages + rounds[0].more;
      var after := AfterRound(c, messages, rounds[0]);
      RequestsGrow(after, g, now, rounds[1..]);
      if |rounds| > 1 {
        FirstRequestExtends(c, g, messages, rounds[0], rounds[1]);
      }
      GrowingFrom(Request(c, g, now, rounds[0].state), RequestsOf(after, g, now, rounds[1..]));
    }
  }

  lemma FirstRequestExtends(c: Context, g: Given, messages: seq<Message>, first: Round, second: Round)
    requires Valid(c, messages) && Fixed(c, g, messages + first.more, first.state)
    ensures Request(c, g, messages + first.more, first.state) <=
            Request(AfterRound(c, messages, first), g, messages + first.more + second.more, second.state)
  {
    hide Projected, Fixed, Accepted;
    var now := messages + first.more;
    AcceptedIsValid(c, messages, None, first.more);
    assert Accepted(c, messages, None) == c by {
      NothingAccepted(c, messages);
    }
    RequestExtends(c, g, now, first.state, second.more);
  }

  lemma NothingAccepted(c: Context, messages: seq<Message>)
    ensures Accepted(c, messages, None) == c
  {
  }
}
