/** When dropping an idle bucket can be noticed: the exact condition, in terms of decisions. */
module LimiterDecisions {
  import opened Limiter

  /** The answers of a bucket to takes at the given times. */
  function Answers(b: Bucket, rate: Rate, times: seq<real>): seq<bool>
    decreases |times|
  {
    if times == [] then [] else [Take(b, rate, times[0]).1] + Answers(Take(b, rate, times[0]).0, rate, times[1..])
  }

  /** Filling up on the way changes nothing. */
  lemma RefillInBetween(b: Bucket, rate: Rate, mid: real, now: real)
    requires Sane(rate) && b.updated <= mid <= now
    ensures Refill(Refill(b, rate, mid), rate, now) == Refill(b, rate, now)
  {
    GainedAdds(rate, b.updated, mid, now);
    GainedIsPositive(rate, mid, now);
  }

  lemma AnswersFromRefilled(b: Bucket, rate: Rate, now: real, times: seq<real>)
    requires Sane(rate) && b.updated <= now && Forward(times, now)
    ensures Answers(Refill(b, rate, now), rate, times) == Answers(b, rate, times)
  {
    if times != [] {
      RefillInBetween(b, rate, now, times[0]);
    }
  }

  lemma {:induction false} AnswersConcat(b: Bucket, rate: Rate, times: seq<real>, last: real)
    ensures |Answers(b, rate, times)| == |times|
    ensures Answers(b, rate, times + [last]) == Answers(b, rate, times) + [Take(After(b, rate, times), rate, last).1]
    decreases |times|
  {
    if times == [] {
      assert times + [last] == [last];
    } else {
      assert (times + [last])[1..] == times[1..] + [last];
      AnswersConcat(Take(b, rate, times[0]).0, rate, times[1..], last);
    }
  }

  /** n takes at the same moment. */
  function Burst(now: real, n: nat): (times: seq<real>)
    ensures |times| == n && forall i :: 0 <= i < n ==> times[i] == now
  {
    if n == 0 then [] else [now] + Burst(now, n - 1)
  }

  lemma {:induction false} BurstSpends(b: Bucket, rate: Rate, n: nat)
    requires Sane(rate) && n as real <= b.tokens <= rate.burst
    ensures After(b, rate, Burst(b.updated, n)) == Bucket(b.tokens - n as real, b.updated)
    decreases n
  {
    if n == 0 {
    } else {
      assert Gained(rate, b.updated, b.updated) == 0.0;
      var next := Bucket(b.tokens - 1.0, b.updated);
      assert Take(b, rate, b.updated) == (next, true);
      BurstSpends(next, rate, n - 1);
      assert Burst(b.updated, n)[1..] == Burst(b.updated, n - 1);
    }
  }

  /** The wait after which the fuller of two spent buckets holds its first token. */
  function Wait(rate: Rate, left: real): (seconds: real)
    requires Sane(rate)
  {
    if left >= 1.0 then 0.0 else (1.0 - left) / rate.perSecond
  }

  lemma WaitFills(rate: Rate, left: real, now: real)
    requires Sane(rate)
    ensures Wait(rate, left) >= 0.0
    ensures Gained(rate, now, now + Wait(rate, left)) == if left >= 1.0 then 0.0 else 1.0 - left
  {
    if left < 1.0 {
      Quotient(1.0 - left, rate.perSecond);
      assert now + Wait(rate, left) - now == Wait(rate, left);
    } else {
      assert Gained(rate, now, now + 0.0) == 0.0;
    }
  }

  lemma Quotient(a: real, b: real)
    requires a >= 0.0 && b > 0.0
    ensures a / b >= 0.0 && (a / b) * b == a
  {
  }

  /** Takes that tell two buckets apart: the whole tokens of the emptier one, and one more when the other has it. */
  function Telling(rate: Rate, now: real, less: real, more: real): (times: seq<real>)
    requires Sane(rate) && less >= 0.0
    ensures |times| == less.Floor + 1
  {
    Burst(now, less.Floor) + [now + Wait(rate, more - less.Floor as real)]
  }

  lemma LastTakeDiffers(rate: Rate, now: real, less: real, more: real)
    requires Sane(rate) && 0.0 <= less < more <= rate.burst
    ensures var n := less.Floor as real; var last := now + Wait(rate, more - n);
            !Take(Bucket(less - n, now), rate, last).1 && Take(Bucket(more - n, now), rate, last).1
  {
    WaitFills(rate, more - less.Floor as real, now);
  }

  lemma TellingIsForward(rate: Rate, now: real, less: real, more: real)
    requires Sane(rate) && less >= 0.0
    ensures Forward(Telling(rate, now, less, more), now)
  {
    WaitFills(rate, more - less.Floor as real, now);
  }

  /** Two buckets with different contents are told apart by some takes. */
  lemma DifferentContentsShow(rate: Rate, now: real, less: real, more: real)
    requires Sane(rate) && 0.0 <= less < more <= rate.burst
    ensures Forward(Telling(rate, now, less, more), now)
    ensures Answers(Bucket(less, now), rate, Telling(rate, now, less, more))
         != Answers(Bucket(more, now), rate, Telling(rate, now, less, more))
  {
    var n := less.Floor;
    var last := now + Wait(rate, more - n as real);
    TellingIsForward(rate, now, less, more);
    BurstSpends(Bucket(less, now), rate, n);
    BurstSpends(Bucket(more, now), rate, n);
    AnswersConcat(Bucket(less, now), rate, Burst(now, n), last);
    AnswersConcat(Bucket(more, now), rate, Burst(now, n), last);
    LastTakeDiffers(rate, now, less, more);
    var times := Burst(now, n) + [last];
    assert Answers(Bucket(less, now), rate, times)[n] != Answers(Bucket(more, now), rate, times)[n];
  }

  /** Whatever an idle bucket held and whenever it is asked again, a full one answers the same. */
  ghost predicate EvictionIsInvisible(policy: Policy) {
    forall b: Bucket, now: real, times: seq<real> ::
      b.tokens >= 0.0 && now - b.updated >= policy.idle && Forward(times, now) ==>
        Answers(b, policy.rate, times) == Answers(Full(policy.rate, now), policy.rate, times)
  }

  /**
   Replacing a bucket that has been idle by a full one changes no decision, whatever it held and
   whatever is asked later, if and only if a bucket refills completely while it is idle.
   */
  lemma EvictionIsInvisibleExactly(policy: Policy)
    requires SanePolicy(policy)
    ensures policy.rate.perSecond * policy.idle >= policy.rate.burst <==> EvictionIsInvisible(policy)
  {
    if policy.rate.perSecond * policy.idle >= policy.rate.burst {
      forall b: Bucket, now: real, times: seq<real> |
        b.tokens >= 0.0 && now - b.updated >= policy.idle && Forward(times, now)
        ensures Answers(b, policy.rate, times) == Answers(Full(policy.rate, now), policy.rate, times)
      {
        Refills(b, policy, now);
        AnswersFromRefilled(b, policy.rate, now, times);
      }
    } else {
      ShortIdleShows(policy);
    }
  }

  /** An emptied bucket that is dropped too early shows. */
  lemma ShortIdleShows(policy: Policy)
    requires SanePolicy(policy) && policy.rate.perSecond * policy.idle < policy.rate.burst
    ensures !EvictionIsInvisible(policy)
  {
    var rate, now, b := policy.rate, policy.idle, Bucket(0.0, 0.0);
    var held := rate.perSecond * now;
    GainedIsPositive(rate, 0.0, now);
    assert Gained(rate, 0.0, now) == held;
    assert Refill(b, rate, now) == Bucket(held, now);
    var times := Telling(rate, now, held, rate.burst);
    DifferentContentsShow(rate, now, held, rate.burst);
    AnswersFromRefilled(b, rate, now, times);
    assert Answers(b, rate, times) != Answers(Full(rate, now), rate, times);
  }
}
