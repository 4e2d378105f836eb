/** The reactions endpoint of app/api/reactions/route.ts: a process-wide,
    arrival-ordered list of reactions, capped at 1000 entries, trimmed from
    the front by a periodic age sweep, written by `POST` and read by `GET`.
    The store is passed in and returned explicitly; the clock and the random
    draw are parameters. */
module Route {
  import opened Wrappers
  import opened Js
  import opened Seqs
  import opened Ids

  /** Most reactions the store keeps (route.ts:56-57). */
  const MaxStored: nat := 1000
  /** How long the sweep keeps a reaction, in milliseconds (route.ts:14). */
  const RetentionMs: int := 10000

  const InvalidDataMessage: string := "Invalid reaction data"
  const ProcessingFailedMessage: string := "Failed to process reaction"

  /** One stored reaction. `emoji` is whatever truthy JSON value the client
      sent; `x` is a JSON number. */
  datatype Reaction = Reaction(id: string, emoji: JsValue, x: real, timestamp: int)

  /** The request body of a `POST`: unparsable, or the parsed JSON value. */
  datatype Body = Malformed | Parsed(value: JsValue)

  datatype PostResponse =
    | Created(reaction: Reaction)
    | InvalidData
    | ProcessingFailed
  {
    /** The HTTP status: `NextResponse.json` defaults to 200. An error
        payload comes with exactly the failure statuses. */
    function Status(): (code: int)
      ensures Created? ==> code == 200 && Error().None?
      ensures InvalidData? ==> code == 400 && Error() == Some(InvalidDataMessage)
      ensures ProcessingFailed? ==> code == 500 && Error() == Some(ProcessingFailedMessage)
    {
      match this
      case Created(_) => 200
      case InvalidData => 400
      case ProcessingFailed => 500
    }

    /** The `error` field of the response payload, if any. */
    function Error(): Option<string> {
      match this
      case Created(_) => None
      case InvalidData => Some(InvalidDataMessage)
      case ProcessingFailed => Some(ProcessingFailedMessage)
    }
  }

  datatype PostResult = PostResult(store: seq<Reaction>, response: PostResponse)

  /** The `GET` payload: the matching reactions and the server's clock. */
  datatype ListResponse = ListResponse(reactions: seq<Reaction>, timestamp: int)

  /** Timestamps never decrease along the store. */
  predicate Sorted(s: seq<Reaction>) {
    forall i, j :: 0 <= i < j < |s| ==> s[i].timestamp <= s[j].timestamp
  }

  // ---------------------------------------------------------------------
  // Size cap and append

  /** `if (length > 1000) splice(0, length - 1000)`: keep the newest 1000. */
  function Cap(s: seq<Reaction>): (r: seq<Reaction>)
    ensures |r| == Min(|s|, MaxStored)
    ensures IsSuffix(r, s)
  {
    if |s| > MaxStored then s[|s| - MaxStored..] else s
  }

  /** `push` followed by the cap. */
  function Push(store: seq<Reaction>, r: Reaction): (s: seq<Reaction>)
    ensures |s| == Min(|store| + 1, MaxStored)
    ensures IsSuffix(s, store + [r])
    ensures s[|s| - 1] == r
    ensures IsSuffix(s[..|s| - 1], store)
  {
    var t := store + [r];
    var s := Cap(t);
    assert s[..|s| - 1] == store[|store| - (|s| - 1)..];
    s
  }

  // ---------------------------------------------------------------------
  // POST

  /** `POST`: destructure `{emoji, x}` from the parsed body, reject a falsy
      `emoji` or a non-number `x` with 400, otherwise build the reaction
      (id from the first clock reading and the draw, timestamp from the
      second), append it and cap the store. A body that does not parse, or
      that is `null`, throws inside the `try` and yields 500. */
  function Post(store: seq<Reaction>, body: Body, idClock: nat, stampClock: nat, draw: Draw): (res: PostResult)
    ensures res.response.ProcessingFailed? <==> body.Malformed? || Member(body.value, "emoji").None?
    ensures res.response.Created? <==>
      && body.Parsed?
      && Member(body.value, "emoji").Some?
      && Truthy(Member(body.value, "emoji").value)
      && Member(body.value, "x").value.JsNumber?
    ensures !res.response.Created? ==> res.store == store
    ensures res.response.Created? ==>
      var r := res.response.reaction;
      && r.id == MakeId(idClock, draw)
      && r.emoji == Member(body.value, "emoji").value
      && r.x == Member(body.value, "x").value.n
      && r.timestamp == stampClock
      && |res.store| == Min(|store| + 1, MaxStored)
      && IsSuffix(res.store, store + [r])
      && res.store[|res.store| - 1] == r
  {
    match body
    case Malformed => PostResult(store, ProcessingFailed)
    case Parsed(v) =>
      match (Member(v, "emoji"), Member(v, "x"))
      case (None, _) => PostResult(store, ProcessingFailed)
      case (_, None) => PostResult(store, ProcessingFailed)
      case (Some(emoji), Some(x)) =>
        if !Truthy(emoji) || !x.JsNumber? then PostResult(store, InvalidData)
        else
          var r := Reaction(MakeId(idClock, draw), emoji, x.n, stampClock);
          PostResult(Push(store, r), Created(r))
  }

  // ---------------------------------------------------------------------
  // GET

  /** `searchParams.get('since') || '0'`: a missing or empty parameter reads as "0". */
  function SinceText(param: Option<string>): (text: string)
    ensures |text| > 0
    ensures param.Some? && param.value != "" ==> text == param.value
    ensures text == "0" <==> param.None? || param.value == "" || param.value == "0"
  {
    if param.None? || param.value == "" then "0" else param.value
  }

  /** The bound a `GET` compares against: `parseInt` of the parameter text. */
  function Since(param: Option<string>): Num {
    ParseInt(SinceText(param))
  }

  /** The filter callback of route.ts:25, `r => r.timestamp > since`. */
  function NewerThan(since: Num): Reaction -> bool {
    (x: Reaction) => Greater(x.timestamp, since)
  }

  /** route.ts:25, `reactionStore.filter(r => r.timestamp > since)`: the
      stored reactions strictly newer than `since`, in store order, each as
      often as it is stored. Nothing is newer than `NaN`. */
  function Query(store: seq<Reaction>, since: Num): (r: seq<Reaction>)
    ensures forall x :: x in r <==> x in store && Greater(x.timestamp, since)
    ensures forall x :: multiset(r)[x] == if Greater(x.timestamp, since) then multiset(store)[x] else 0
    ensures IsSubsequence(r, store)
    ensures since.Finite? ==> forall x :: x in r ==> x.timestamp > since.v
    ensures since.NaN? ==> r == []
  {
    if since.NaN? then
      FilterDropsAll(store, NewerThan(since));
      Filter(store, NewerThan(since))
    else
      Filter(store, NewerThan(since))
  }

  /** `GET`: parse `since` and answer the newer reactions with the current
      time. The store is an input only: a `GET` leaves it as it was. */
  function List(store: seq<Reaction>, param: Option<string>, now: nat): (resp: ListResponse)
    ensures resp.timestamp == now
    ensures forall x :: x in resp.reactions <==> x in store && Greater(x.timestamp, ParseInt(SinceText(param)))
    ensures forall x :: multiset(resp.reactions)[x] == if Greater(x.timestamp, ParseInt(SinceText(param))) then multiset(store)[x] else 0
    ensures IsSubsequence(resp.reactions, store)
    ensures ParseInt(SinceText(param)).NaN? ==> resp.reactions == []
  {
    ListResponse(Query(store, Since(param)), now)
  }

  // ---------------------------------------------------------------------
  // Periodic sweep

  /** One run of the sweep timer at time `now`: shift reactions off the front
      while the front one is older than `now - 10000`. */
  function Sweep(store: seq<Reaction>, now: int): (r: seq<Reaction>)
    ensures IsSuffix(r, store)
    ensures forall i :: 0 <= i < |store| - |r| ==> store[i].timestamp < now - RetentionMs
    ensures |r| > 0 ==> r[0].timestamp >= now - RetentionMs
    decreases |store|
  {
    if |store| > 0 && store[0].timestamp < now - RetentionMs then Sweep(store[1..], now) else store
  }

  // ---------------------------------------------------------------------
  // Properties

  /** A missing or empty `since` lists from 0. */
  lemma SinceDefaultsToZero(param: Option<string>)
    requires param.None? || param.value == ""
    ensures Since(param) == Finite(0)
  {
    assert SinceText(param) == Decimal(0);
    ParseDecimal(0);
  }

  /** A `since` that starts with something other than white space, a sign or
      a digit parses to NaN, so nothing is listed (rather than everything). */
  lemma NonNumericSinceListsNothing(store: seq<Reaction>, s: string, now: nat)
    requires |s| > 0 && !IsStrWhiteSpace(s[0]) && !IsDecimalDigit(s[0]) && s[0] != '-' && s[0] != '+'
    ensures List(store, Some(s), now).reactions == []
  {
    NoLeadingDigitIsNaN(s);
    assert Since(Some(s)) == NaN;
  }

  /** A `since` of digits followed by junk lists like the digits alone. */
  lemma JunkAfterDigitsIgnored(store: seq<Reaction>, z: string, junk: string, now: nat)
    requires |z| > 0 && AllDecimal(z)
    requires |junk| == 0 || !IsDecimalDigit(junk[0])
    requires !(z == "0" && |junk| > 0 && (junk[0] == 'x' || junk[0] == 'X'))
    ensures List(store, Some(z + junk), now) == List(store, Some(z), now)
  {
    DigitsThenJunk(z, junk);
    DigitsThenJunk(z, []);
    assert z + [] == z;
  }

  /** With no `since`, every stored reaction stamped after time 0 is listed,
      in insertion order. */
  lemma ListAllWithoutSince(store: seq<Reaction>, now: nat)
    requires forall i :: 0 <= i < |store| ==> store[i].timestamp > 0
    ensures List(store, None, now).reactions == store
  {
    ListIsQuery(store, None, now);
    SinceDefaultsToZero(None);
    QueryKeepsAll(store, Finite(0));
  }

  // Unfolds `List` once, so callers need not.
  lemma ListIsQuery(store: seq<Reaction>, param: Option<string>, now: nat)
    ensures List(store, param, now).reactions == Query(store, Since(param))
  {
  }

  lemma QueryKeepsAll(store: seq<Reaction>, since: Num)
    requires forall i :: 0 <= i < |store| ==> Greater(store[i].timestamp, since)
    ensures Query(store, since) == store
  {
    FilterKeepsAll(store, NewerThan(since));
  }

  lemma QueryAppend(a: seq<Reaction>, b: seq<Reaction>, since: Num)
    ensures Query(a + b, since) == Query(a, since) + Query(b, since)
  {
    FilterAppend(a, b, NewerThan(since));
  }

  lemma SuffixOfSorted(a: seq<Reaction>, b: seq<Reaction>)
    requires Sorted(b) && IsSuffix(a, b)
    ensures Sorted(a)
  {
    var k := |b| - |a|;
    forall i, j | 0 <= i < j < |a| ensures a[i].timestamp <= a[j].timestamp {
      assert a[i] == b[k + i] && a[j] == b[k + j];
    }
  }

  /** Appending a reaction no older than the newest one keeps the store sorted,
      and so does the cap. */
  lemma PushPreservesSorted(store: seq<Reaction>, r: Reaction)
    requires Sorted(store)
    requires |store| == 0 || store[|store| - 1].timestamp <= r.timestamp
    ensures Sorted(Push(store, r))
  {
    var t := store + [r];
    assert Sorted(t) by {
      forall i, j | 0 <= i < j < |t| ensures t[i].timestamp <= t[j].timestamp {
        if j == |store| && i < |store| {
          assert store[i].timestamp <= store[|store| - 1].timestamp;
        }
      }
    }
    SuffixOfSorted(Push(store, r), t);
  }

  /** With a clock that never runs backwards, every `POST` keeps the store sorted. */
  lemma PostPreservesSorted(store: seq<Reaction>, body: Body, idClock: nat, stampClock: nat, draw: Draw)
    requires Sorted(store)
    requires |store| == 0 || store[|store| - 1].timestamp <= stampClock
    ensures Sorted(Post(store, body, idClock, stampClock, draw).store)
  {
    var res := Post(store, body, idClock, stampClock, draw);
    if res.response.Created? {
      PushPreservesSorted(store, res.response.reaction);
    }
  }

  /** The sweep keeps a sorted store sorted. */
  lemma SweepPreservesSorted(store: seq<Reaction>, now: int)
    requires Sorted(store)
    ensures Sorted(Sweep(store, now))
  {
    SuffixOfSorted(Sweep(store, now), store);
  }

  /** On a sorted store, trimming the front is enough: after a sweep nothing
      older than the cutoff remains anywhere. */
  lemma SweepLeavesNothingOld(store: seq<Reaction>, now: int)
    requires Sorted(store)
    ensures forall r :: r in Sweep(store, now) ==> r.timestamp >= now - RetentionMs
  {
    var s := Sweep(store, now);
    SweepPreservesSorted(store, now);
    forall r | r in s ensures r.timestamp >= now - RetentionMs {
      var i :| 0 <= i < |s| && s[i] == r;
      assert s[0].timestamp <= s[i].timestamp;
    }
  }

  /** Without the sorted precondition the sweep can leave an old reaction
      behind a newer one. */
  lemma SweepNeedsSortedStore()
    ensures var stale := Reaction("1", JsString("a"), 0.0, 0);
            var young := Reaction("2", JsString("b"), 0.0, 50000);
            Sweep([young, stale], 50000) == [young, stale]
  {
  }

  /** `n` valid submissions one after another. */
  function PushAll(store: seq<Reaction>, rs: seq<Reaction>): seq<Reaction>
    decreases |rs|
  {
    if |rs| == 0 then store else PushAll(Push(store, rs[0]), rs[1..])
  }

  /** Capping, appending and capping again is the same as capping once. */
  lemma CapAbsorbs(a: seq<Reaction>, b: seq<Reaction>)
    ensures Cap(Cap(a) + b) == Cap(a + b)
  {
    if |a| > MaxStored {
      var c := Cap(a) + b;
      var d := a + b;
      assert |c| == MaxStored + |b|;
      assert Cap(c) == c[|b|..];
      assert Cap(d) == d[|d| - MaxStored..];
      forall j | |b| <= j < |c| ensures c[j] == d[|d| - |c| + j] {
        if j < MaxStored {
          assert c[j] == a[|a| - MaxStored + j];
        } else {
          assert c[j] == b[j - MaxStored];
        }
      }
    } else {
      assert Cap(a) == a;
    }
  }

  // Unfolds `Push` once, so callers need not.
  lemma PushIsCap(store: seq<Reaction>, r: Reaction)
    ensures Push(store, r) == Cap(store + [r])
  {
  }

  // Sequence associativity, stated apart to keep `PushAllKeepsNewest` small.
  lemma HeadThenTail(store: seq<Reaction>, rs: seq<Reaction>)
    requires |rs| > 0
    ensures store + [rs[0]] + rs[1..] == store + rs
  {
  }

  /** Submitting many reactions keeps exactly the newest 1000 of the old
      store followed by them: a burst of 1500 leaves the last 1000. */
  lemma {:induction false} PushAllKeepsNewest(store: seq<Reaction>, rs: seq<Reaction>)
    requires |store| <= MaxStored
    ensures PushAll(store, rs) == Cap(store + rs)
    ensures |PushAll(store, rs)| == Min(|store| + |rs|, MaxStored)
    decreases |rs|
  {
    if |rs| == 0 {
      assert store + rs == store;
    } else {
      var p := Push(store, rs[0]);
      PushIsCap(store, rs[0]);
      PushAllKeepsNewest(p, rs[1..]);
      CapAbsorbs(store + [rs[0]], rs[1..]);
      HeadThenTail(store, rs);
    }
  }

  /** A reaction just created is the last one any `GET` with an older `since` lists. */
  lemma PostThenListEndsWithIt(store: seq<Reaction>, body: Body, idClock: nat, stampClock: nat, draw: Draw,
                                since: Num)
    requires Post(store, body, idClock, stampClock, draw).response.Created?
    requires Greater(stampClock, since)
    ensures var res := Post(store, body, idClock, stampClock, draw);
            var listed := Query(res.store, since);
            |listed| > 0 && listed[|listed| - 1] == res.response.reaction
  {
    var res := Post(store, body, idClock, stampClock, draw);
    EndsWithNewest(res.store, res.response.reaction, since);
  }

  lemma EndsWithNewest(s: seq<Reaction>, r: Reaction, since: Num)
    requires |s| > 0 && s[|s| - 1] == r && Greater(r.timestamp, since)
    ensures var listed := Query(s, since);
            |listed| > 0 && listed[|listed| - 1] == r
  {
    assert s == s[..|s| - 1] + [r];
    QueryAppend(s[..|s| - 1], [r], since);
    QueryKeepsAll([r], since);
  }

  /** Up to 1000 reactions submitted back to back, all newer than `since`,
      are listed together at the end of the `GET` response, in submission order. */
  lemma ListAfterPushAll(store: seq<Reaction>, rs: seq<Reaction>, since: Num)
    requires |store| <= MaxStored && |rs| <= MaxStored
    requires forall i :: 0 <= i < |rs| ==> Greater(rs[i].timestamp, since)
    ensures IsSuffix(rs, Query(PushAll(store, rs), since))
  {
    PushAllKeepsNewest(store, rs);
    var s := PushAll(store, rs);
    var pre := s[..|s| - |rs|];
    EndsWithAppended(s, store, rs);
    QueryAppend(pre, rs, since);
    QueryKeepsAll(rs, since);
  }

  /** A suffix of `store + rs` at least as long as `rs` ends with `rs`. */
  lemma EndsWithAppended(s: seq<Reaction>, store: seq<Reaction>, rs: seq<Reaction>)
    requires IsSuffix(s, store + rs) && |rs| <= |s|
    ensures s == s[..|s| - |rs|] + rs
  {
    var t := store + rs;
    forall i | 0 <= i < |rs| ensures s[|s| - |rs| + i] == rs[i] {
      assert s[|s| - |rs| + i] == t[|t| - |rs| + i];
    }
  }
}
