/** The state updates of the ReactionPanel component in app/page.tsx: the
    optimistic local append, the merge of a poll reply, and the periodic
    expiry filter. React state is an explicit value; the clock and the
    random draws are parameters; each timer tick is one call. */
module Panel {
  import opened Wrappers
  import opened Js
  import opened Seqs
  import opened Ids
  import Route

  /** How long a reaction is meant to stay on screen, in milliseconds (page.tsx:78). */
  const DisplayLifetimeMs: int := 7000

  /** A reaction in the render list: the client-side `Reaction` interface,
      with the optional `timestamp` of a server copy and the provenance flag. */
  datatype Shown = Shown(id: string, emoji: JsValue, x: real, timestamp: Option<int>, isLocal: bool)

  /** The component's state: the render list and the poll high-water mark. */
  datatype PanelState = PanelState(shown: seq<Shown>, lastTimestamp: nat)

  /** `useState([])` and `useRef(0)`. */
  const Initial: PanelState := PanelState([], 0)

  // ---------------------------------------------------------------------
  // addReaction

  /** `10 + Math.random() * 80`, the horizontal placement in percent. */
  function Placement(u: real): (x: real)
    ensures 0.0 <= u < 1.0 ==> 10.0 <= x < 90.0
  {
    10.0 + u * 80.0
  }

  /** The new render state and the `POST` body sent to the server. */
  datatype Added = Added(state: PanelState, request: Route.Body)

  /** `addReaction(emoji)`: append a local reaction at once and send
      `{emoji, x}` to the server. Whatever the `POST` does, the render state
      is this one: a failed submission is only logged. */
  function AddReaction(p: PanelState, emoji: string, clock: nat, placementDraw: real, idDraw: Draw): (a: Added)
    ensures |a.state.shown| == |p.shown| + 1
    ensures a.state.shown[..|p.shown|] == p.shown
    ensures var e := a.state.shown[|p.shown|];
            && e.isLocal
            && e.emoji == JsString(emoji)
            && e.id == MakeId(clock, idDraw)
            && e.timestamp.None?
            && (0.0 <= placementDraw < 1.0 ==> 10.0 <= e.x < 90.0)
            && a.request == Route.Parsed(JsObject(map["emoji" := JsString(emoji), "x" := JsNumber(e.x)]))
    ensures a.state.lastTimestamp == p.lastTimestamp
  {
    var x := Placement(placementDraw);
    var e := Shown(MakeId(clock, idDraw), JsString(emoji), x, None, true);
    Added(PanelState(p.shown + [e], p.lastTimestamp),
          Route.Parsed(JsObject(map["emoji" := JsString(emoji), "x" := JsNumber(x)])))
  }

  /** What the server makes of the body `addReaction` sends: a non-empty
      emoji is accepted and stored with the same emoji and placement; an
      empty one is rejected with 400 and the store is left alone. */
  lemma SubmissionAccepted(p: PanelState, emoji: string, clock: nat, placementDraw: real, idDraw: Draw,
                           store: seq<Route.Reaction>, idClock: nat, stampClock: nat, draw: Draw)
    ensures var a := AddReaction(p, emoji, clock, placementDraw, idDraw);
            var res := Route.Post(store, a.request, idClock, stampClock, draw);
            && (res.response.Created? <==> emoji != "")
            && (res.response.Created? ==>
                  res.response.reaction.emoji == JsString(emoji) &&
                  res.response.reaction.x == a.state.shown[|p.shown|].x)
            && (emoji == "" ==> res.response.Status() == 400 && res.store == store)
  {
    var a := AddReaction(p, emoji, clock, placementDraw, idDraw);
    var v := a.request.value;
    assert Member(v, "emoji") == Some(JsString(emoji));
    assert Member(v, "x") == Some(JsNumber(Placement(placementDraw)));
  }

  // ---------------------------------------------------------------------
  // pollReactions

  /** What `fetch` + `response.json()` delivered: a failure (caught and
      logged), or a payload whose `reactions` field may be missing. */
  datatype PollReply = PollFailed | PollData(reactions: Option<seq<Route.Reaction>>, timestamp: nat)

  /** The `since` query parameter of a poll: `?since=${lastTimestampRef.current}`. */
  function PollQuery(p: PanelState): (q: Option<string>)
    ensures Route.Since(q) == Finite(p.lastTimestamp)
  {
    ParseDecimal(p.lastTimestamp);
    assert Route.SinceText(Some(Decimal(p.lastTimestamp))) == Decimal(p.lastTimestamp);
    Some(Decimal(p.lastTimestamp))
  }

  /** `{...r, isLocal: false}`. */
  function Received(r: Route.Reaction): (e: Shown)
    ensures e.id == r.id && e.emoji == r.emoji && e.x == r.x && e.timestamp == Some(r.timestamp)
    ensures !e.isLocal
  {
    Shown(r.id, r.emoji, r.x, Some(r.timestamp), false)
  }

  predicate Delivers(reply: PollReply) {
    reply.PollData? && reply.reactions.Some? && |reply.reactions.value| > 0
  }

  /** The state update of `pollReactions`: a non-empty reply is appended in
      server order, every entry tagged remote, and its `timestamp` becomes the
      high-water mark; anything else changes nothing. */
  function ApplyPoll(p: PanelState, reply: PollReply): (q: PanelState)
    ensures Delivers(reply) ==>
      var rs := reply.reactions.value;
      && |q.shown| == |p.shown| + |rs|
      && q.shown[..|p.shown|] == p.shown
      && (forall i :: 0 <= i < |rs| ==>
            var e := q.shown[|p.shown| + i];
            && e.id == rs[i].id && e.emoji == rs[i].emoji && e.x == rs[i].x
            && e.timestamp == Some(rs[i].timestamp) && !e.isLocal)
      && q.lastTimestamp == reply.timestamp
    ensures !Delivers(reply) ==> q == p
  {
    if Delivers(reply) then
      var rs := reply.reactions.value;
      var incoming := seq(|rs|, i requires 0 <= i < |rs| => Received(rs[i]));
      PanelState(p.shown + incoming, reply.timestamp)
    else p
  }

  /** The server reads back exactly the high-water mark the client sent, so a
      poll delivers the stored reactions strictly newer than it. */
  lemma PollAsksSinceMark(p: PanelState, store: seq<Route.Reaction>, now: nat)
    ensures Route.Since(PollQuery(p)) == Finite(p.lastTimestamp)
    ensures Route.List(store, PollQuery(p), now).reactions == Route.Query(store, Finite(p.lastTimestamp))
  {
    ParseDecimal(p.lastTimestamp);
    assert Route.SinceText(PollQuery(p)) == Decimal(p.lastTimestamp);
  }

  /** The first poll after mounting asks with `since=0`, so it delivers every
      stored reaction stamped after time 0, in insertion order. */
  lemma FirstPollListsEverything(store: seq<Route.Reaction>, now: nat)
    requires forall i :: 0 <= i < |store| ==> store[i].timestamp > 0
    ensures Route.List(store, PollQuery(Initial), now).reactions == store
  {
    PollAsksSinceMark(Initial, store, now);
    Route.QueryKeepsAll(store, Finite(0));
  }

  // ---------------------------------------------------------------------
  // Expiry

  /** The filter callback of page.tsx:76-79: the age is `now` minus the
      number parsed from the id before its first `.`; a `NaN` age fails. */
  function IdStillShown(id: string, now: int): (kept: bool)
    ensures kept <==> IdTime(id).Finite? && now < IdTime(id).v + DisplayLifetimeMs
  {
    match IdTime(id)
    case NaN => false
    case Finite(t) => now - t < DisplayLifetimeMs
  }

  function KeepAt(now: int): Shown -> bool {
    (e: Shown) => IdStillShown(e.id, now)
  }

  /** One tick of the 100 ms expiry timer at time `now`. */
  function Expire(shown: seq<Shown>, now: int): (r: seq<Shown>)
    ensures forall e :: e in r <==> e in shown && IdStillShown(e.id, now)
    ensures forall e :: multiset(r)[e] == if IdStillShown(e.id, now) then multiset(shown)[e] else 0
    ensures IsSubsequence(r, shown)
  {
    Filter(shown, KeepAt(now))
  }

  /** For a fixed `now`, a second expiry pass removes nothing more. */
  lemma ExpireIdempotent(shown: seq<Shown>, now: int)
    ensures Expire(Expire(shown, now), now) == Expire(shown, now)
  {
    FilterIdempotent(shown, KeepAt(now));
  }

  /** What the filter actually does with an id made at clock `t`: it stays
      until `10 * t + d + 7000` for the draw's first digit `d`, not until `t + 7000`. */
  lemma MadeIdShownUntil(t: nat, d: Draw, now: int)
    requires ValidDraw(d)
    ensures IdStillShown(MakeId(t, d), now) <==> now < 10 * t + LeadDigit(d) + DisplayLifetimeMs
  {
    IdTimeOfMadeId(t, d);
  }

  /** The discrepancy: a reaction made at any positive clock reading is still
      shown seven seconds later, and indeed at every time up to `9 * t + 7000`. */
  lemma StillShownAfterSevenSeconds(t: nat, d: Draw, now: int)
    requires ValidDraw(d) && t > 0
    requires t + DisplayLifetimeMs <= now <= 9 * t + DisplayLifetimeMs
    ensures IdStillShown(MakeId(t, d), now)
  {
    MadeIdShownUntil(t, d, now);
  }

  /** The creation time the filter evidently means to read: the parsed
      prefix carries one extra digit of the random draw, so drop it. */
  function CreationTime(id: string): Num {
    match IdTime(id)
    case NaN => NaN
    case Finite(v) => Finite(v / 10)
  }

  predicate IdWithinLifetime(id: string, now: int) {
    match CreationTime(id)
    case NaN => false
    case Finite(t) => now - t < DisplayLifetimeMs
  }

  function KeepWithinLifetime(now: int): Shown -> bool {
    (e: Shown) => IdWithinLifetime(e.id, now)
  }

  /** The expiry tick as intended: keep a reaction for 7000 ms after it was made. */
  function ExpireByLifetime(shown: seq<Shown>, now: int): (r: seq<Shown>)
    ensures forall e :: e in r <==> e in shown && IdWithinLifetime(e.id, now)
    ensures forall e :: multiset(r)[e] == if IdWithinLifetime(e.id, now) then multiset(shown)[e] else 0
    ensures IsSubsequence(r, shown)
  {
    Filter(shown, KeepWithinLifetime(now))
  }

  /** With the extra digit dropped, an id made at clock `t` is kept exactly
      while less than 7000 ms have passed since `t`. */
  lemma MadeIdWithinLifetime(t: nat, d: Draw, now: int)
    requires ValidDraw(d)
    ensures CreationTime(MakeId(t, d)) == Finite(t)
    ensures IdWithinLifetime(MakeId(t, d), now) <==> now - t < DisplayLifetimeMs
  {
    MadeIdCreationTime(t, d);
  }

  lemma MadeIdCreationTime(t: nat, d: Draw)
    requires ValidDraw(d)
    ensures CreationTime(MakeId(t, d)) == Finite(t)
  {
    IdTimeOfMadeId(t, d);
    var v := 10 * t + LeadDigit(d);
    CreationTimeDropsDigit(MakeId(t, d), v);
    assert v / 10 == t;
  }

  // Unfolds `CreationTime` once, so `MadeIdCreationTime` need not.
  lemma CreationTimeDropsDigit(id: string, v: int)
    requires IdTime(id) == Finite(v)
    ensures CreationTime(id) == Finite(v / 10)
  {
  }
}
