/**
 * The second stage's client (src/engine/llm_gateway.py): the sliding-window
 * rate limiter `_throttle`, the classification of a chat-completion call's
 * outcome in `_call_api`, and the normalisation of that outcome in `analyze`.
 * Clock readings are parameters; the HTTP exchange is an abstract outcome.
 */
module LlmGateway {
  import opened Wrappers
  import opened Json

  /** `_rate_limit` */
  const RateLimit: nat := 60
  /** The window length of `_throttle`, in seconds. */
  const Window: real := 60.0

  predicate Sorted(w: seq<real>)
  {
    forall i, j :: 0 <= i < j < |w| ==> w[i] <= w[j]
  }

  /** Every reading in the window is at most `now`. */
  predicate NotAfter(w: seq<real>, now: real)
  {
    forall i :: 0 <= i < |w| ==> w[i] <= now
  }

  /**
   * The pruning loop: drops readings from the front while the oldest is more
   * than `Window` seconds older than `now`. What is kept is a suffix whose
   * oldest reading is recent enough; everything dropped was stale.
   */
  function Prune(w: seq<real>, now: real): (r: seq<real>)
    ensures |r| <= |w| && r == w[|w| - |r|..]
    ensures r != [] ==> now - r[0] <= Window
    ensures forall i :: 0 <= i < |w| - |r| ==> now - w[i] > Window
    decreases |w|
  {
    if w != [] && now - w[0] > Window then Prune(w[1..], now) else w
  }

  /** With sorted readings, after pruning no retained reading is more than `Window` older than `now`. */
  lemma PruneBound(w: seq<real>, now: real)
    requires Sorted(w)
    ensures forall i :: 0 <= i < |Prune(w, now)| ==> now - Prune(w, now)[i] <= Window
  {
    var r := Prune(w, now);
    if r != [] {
      forall i | 0 <= i < |r| ensures now - r[i] <= Window {
        assert r[0] == w[|w| - |r|] && r[i] == w[|w| - |r| + i];
      }
    }
  }

  /** The sleep `_throttle` performs on `w` at time `now`: none below capacity. */
  function Delay(w: seq<real>, now: real): (d: real)
    ensures d >= 0.0
    ensures |Prune(w, now)| < RateLimit ==> d == 0.0
  {
    var p := Prune(w, now);
    if |p| >= RateLimit && Window - (now - p[0]) > 0.0 then Window - (now - p[0]) else 0.0
  }

  /** At capacity the delay is what remains of the oldest reading's window, when positive. */
  lemma DelayAtCapacity(w: seq<real>, now: real)
    requires |Prune(w, now)| >= RateLimit
    ensures var oldest := Prune(w, now)[0];
            Delay(w, now) == if Window - (now - oldest) > 0.0 then Window - (now - oldest) else 0.0
  {
  }

  /** The readings `_throttle` keeps: pruned at `t1` and, at capacity, pruned again at `t2`. */
  function Kept(w: seq<real>, t1: real, t2: real): (q: seq<real>)
    ensures |q| <= |w| && q == w[|w| - |q|..]
  {
    var p := Prune(w, t1);
    if |p| >= RateLimit then
      var q := Prune(p, t2);
      SuffixOfSuffix(w, p, q);
      q
    else p
  }

  lemma SuffixOfSuffix<T>(w: seq<T>, p: seq<T>, q: seq<T>)
    requires |p| <= |w| && p == w[|w| - |p|..]
    requires |q| <= |p| && q == p[|p| - |q|..]
    ensures q == w[|w| - |q|..]
  {
    assert w[|w| - |p|..][|p| - |q|..] == w[|w| - |q|..];
  }

  /**
   * The window after `_throttle` with clock readings `t1` (the first `now`),
   * `t2` (the `now` after the sleep, read only at capacity) and `t3` (the
   * reading appended).
   */
  function Throttled(w: seq<real>, t1: real, t2: real, t3: real): seq<real>
  {
    Kept(w, t1, t2) + [t3]
  }

  /** Every call appends exactly one reading, at the back, and otherwise only drops old readings. */
  lemma ThrottleAppendsOne(w: seq<real>, t1: real, t2: real, t3: real)
    ensures var r := Throttled(w, t1, t2, t3);
            |r| >= 1 && r[|r| - 1] == t3 && r[..|r| - 1] == w[|w| - (|r| - 1)..]
  {
    var q := Kept(w, t1, t2);
    assert (q + [t3])[..|q|] == q;
  }

  lemma SuffixSorted(w: seq<real>, k: nat)
    requires Sorted(w) && k <= |w|
    ensures Sorted(w[k..])
  {
    assert forall i, j :: 0 <= i < j < |w| - k ==> w[k..][i] == w[k + i] && w[k..][j] == w[k + j];
  }

  lemma NotAfterSuffix(w: seq<real>, k: nat, now: real)
    requires NotAfter(w, now) && k <= |w|
    ensures NotAfter(w[k..], now)
  {
    assert forall i :: 0 <= i < |w| - k ==> w[k..][i] == w[k + i];
  }

  lemma SortedSnoc(q: seq<real>, now: real, x: real)
    requires Sorted(q) && NotAfter(q, now) && now <= x
    ensures Sorted(q + [x]) && NotAfter(q + [x], x)
  {
    var r := q + [x];
    assert forall i :: 0 <= i < |q| ==> r[i] == q[i];
  }

  /** Readings stay non-decreasing, because each one appended is a fresh monotonic reading. */
  lemma ThrottlePreservesSorted(w: seq<real>, t1: real, t2: real, t3: real)
    requires Sorted(w) && NotAfter(w, t1) && t1 <= t2 <= t3
    ensures Sorted(Throttled(w, t1, t2, t3)) && NotAfter(Throttled(w, t1, t2, t3), t3)
  {
    var q := Kept(w, t1, t2);
    SuffixSorted(w, |w| - |q|);
    NotAfterSuffix(w, |w| - |q|, t1);
    SortedSnoc(q, t1, t3);
  }

  /**
   * When the sleep ends strictly after the oldest reading's window, the
   * window never holds more than `RateLimit` readings.
   */
  lemma ThrottleBoundedOnOvershoot(w: seq<real>, t1: real, t2: real, t3: real)
    requires Sorted(w) && |w| <= RateLimit
    requires t2 > t1 + Delay(w, t1)
    ensures |Throttled(w, t1, t2, t3)| <= RateLimit
  {
    var p := Prune(w, t1);
    if |p| >= RateLimit {
      assert t2 - p[0] > Window;
      assert |Prune(p, t2)| < |p|;
    }
  }

  /**
   * Pruning is strict (`>`), so a sleep that ends exactly on time keeps the
   * oldest reading: 60 readings at time 0 and a call at time 0 that wakes at
   * 60 leave 61 readings in the window.
   */
  lemma ExactWakeKeepsLimitPlusOne()
    ensures var w := seq(RateLimit, _ => 0.0);
            Delay(w, 0.0) == Window && |Throttled(w, 0.0, Window, Window)| == RateLimit + 1
  {
    var w := seq(RateLimit, _ => 0.0);
    assert Prune(w, 0.0) == w;
    assert Prune(w, Window) == w;
  }

  /** `LLMGateway`: the rate window of readings of recent calls. */
  class Gateway {
    var rateWindow: seq<real>

    ghost predicate Valid()
      reads this
    {
      Sorted(rateWindow)
    }

    constructor ()
      ensures Valid() && rateWindow == []
    {
      rateWindow := [];
    }

    /**
     * `_throttle` with the clock readings as parameters: the caller's clock is
     * monotonic and sleeping for `Delay` lets at least that much time pass.
     * The request is delayed, never refused.
     */
    method Throttle(t1: real, t2: real, t3: real) returns (delay: real)
      requires Valid() && NotAfter(rateWindow, t1) && t1 <= t2 <= t3
      requires t2 >= t1 + Delay(rateWindow, t1)
      modifies this
      ensures Valid() && NotAfter(rateWindow, t3)
      ensures delay == Delay(old(rateWindow), t1)
      ensures rateWindow == Throttled(old(rateWindow), t1, t2, t3)
    {
      ghost var w0 := rateWindow;
      ThrottlePreservesSorted(w0, t1, t2, t3);
      var now := t1;
      while rateWindow != [] && now - rateWindow[0] > Window
        invariant Prune(rateWindow, now) == Prune(w0, t1)
        decreases |rateWindow|
      {
        rateWindow := rateWindow[1..];
      }
      delay := 0.0;
      if |rateWindow| >= RateLimit {
        var sleepFor := Window - (now - rateWindow[0]);
        if sleepFor > 0.0 {
          delay := sleepFor;
        }
        now := t2;
        ghost var p := rateWindow;
        while rateWindow != [] && now - rateWindow[0] > Window
          invariant Prune(rateWindow, now) == Prune(p, t2)
          decreases |rateWindow|
        {
          rateWindow := rateWindow[1..];
        }
      }
      rateWindow := rateWindow + [t3];
    }

    /**
     * `analyze`: throttles first, so every call takes a slot in the window
     * whatever its outcome, then normalises the result of `_call_api`.
     * `loopFails` stands for an exception raised while running the event loop.
     */
    method Analyze(outcome: HttpOutcome, parse: string -> Option<Json>, loopFails: bool,
                   t1: real, t2: real, t3: real) returns (result: seq<Json>, delay: real)
      requires Valid() && NotAfter(rateWindow, t1) && t1 <= t2 <= t3
      requires t2 >= t1 + Delay(rateWindow, t1)
      modifies this
      ensures Valid() && NotAfter(rateWindow, t3)
      ensures delay == Delay(old(rateWindow), t1)
      ensures rateWindow == Throttled(old(rateWindow), t1, t2, t3)
      ensures result == if loopFails then [] else Normalize(CallApi(outcome, parse))
    {
      delay := Throttle(t1, t2, t3);
      if loopFails {
        return [], delay;
      }
      result := Normalize(CallApi(outcome, parse));
    }
  }

  /** How the POST of `_call_api` ended: a response (with its body parsed as JSON, if it parses) or an exception. */
  datatype HttpOutcome =
    | Response(status: int, body: Option<Json>)
    | Timeout
    | RequestError
    | OtherError

  /** `result["choices"][0]["message"]["content"]` when every step exists and the content is a string. */
  function ContentOf(envelope: Json): (r: Option<string>)
    ensures r.Some? ==> envelope.JObj? && "choices" in envelope.fields
    ensures var c := Member(Member(Element0(Member(Some(envelope), "choices")), "message"), "content");
            (r.Some? <==> c.Some? && c.value.JStr?) && (r.Some? ==> c == Some(JStr(r.value)))
  {
    if envelope.JObj? && "choices" in envelope.fields
       && envelope.fields["choices"].JArr? && |envelope.fields["choices"].items| > 0
    then
      var choice := envelope.fields["choices"].items[0];
      if choice.JObj? && "message" in choice.fields && choice.fields["message"].JObj?
         && "content" in choice.fields["message"].fields
         && choice.fields["message"].fields["content"].JStr?
      then Some(choice.fields["message"].fields["content"].s)
      else None
    else None
  }

  /**
   * `_call_api` over an abstract outcome: the parsed content on a 200
   * response whose envelope has a string content that parses; `None` for a
   * non-200 status, a body that is not JSON, a missing content, content that
   * does not parse, a timeout, a request error or any other error.
   */
  function CallApi(outcome: HttpOutcome, parse: string -> Option<Json>): (r: Option<Json>)
    ensures r.Some? <==> outcome.Response? && outcome.status == 200 && outcome.body.Some?
                         && ContentOf(outcome.body.value).Some? && parse(ContentOf(outcome.body.value).value).Some?
    ensures r.Some? ==> r == parse(ContentOf(outcome.body.value).value)
    ensures outcome.Response? && outcome.status != 200 ==> r.None?
  {
    match outcome
    case Response(status, body) =>
      if status != 200 then None
      else if body.None? then None
      else (match ContentOf(body.value)
            case None => None
            case Some(content) => parse(content))
    case Timeout => None
    case RequestError => None
    case OtherError => None
  }

  /**
   * The normalisation in `analyze`: nothing becomes `[]`, a dictionary a
   * one-element list, a list itself, anything else (including JSON `null`,
   * which `json.loads` returns as `None`) `[]`.
   */
  function Normalize(result: Option<Json>): (r: seq<Json>)
    ensures result.None? ==> r == []
    ensures result.Some? && result.value.JObj? ==> r == [result.value]
    ensures result.Some? && result.value.JArr? ==> r == result.value.items
    ensures result.Some? && !result.value.JObj? && !result.value.JArr? ==> r == []
  {
    match result
    case None => []
    case Some(JObj(_)) => [result.value]
    case Some(JArr(items)) => items
    case Some(_) => []
  }

  /** Normalising a list that `analyze` already returned changes nothing. */
  lemma NormalizeIdempotent(result: Option<Json>)
    ensures Normalize(Some(JArr(Normalize(result)))) == Normalize(result)
  {
  }

  /** A failed call is the empty list, the same as a reply with no trading intent. */
  lemma FailedCallIsEmpty(outcome: HttpOutcome, parse: string -> Option<Json>)
    requires !outcome.Response? || outcome.status != 200
    ensures Normalize(CallApi(outcome, parse)) == []
  {
  }
}
