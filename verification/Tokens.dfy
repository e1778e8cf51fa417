/** The two credential caches: a GitHub installation token and AWS web-identity
    credentials. Both reuse what they hold while more than five minutes are left. */
module Tokens {
  import opened Text
  import opened Clock

  const MINUTE: Time := 60_000_000_000
  const MARGIN: Time := 5 * MINUTE
  const HOUR: Time := 60 * MINUTE

  datatype Cache<T> = Cache(value: T, expires: Time)

  /** What the exchange comes back with, if it is made. */
  datatype Reply<T> = Failed | Granted(grant: Cache<T>)

  datatype Outcome<T> = Outcome(cache: Cache<T>, result: Option<T>, granted: bool)

  predicate Fresh<T>(usable: T -> bool, c: Cache<T>, now: Time) {
    usable(c.value) && c.expires - now > MARGIN
  }

  /** One call: reuse, or exchange; a failed exchange is an error and nothing else. */
  function Call<T>(usable: T -> bool, accepts: T -> bool, c: Cache<T>, now: Time, reply: Reply<T>): Outcome<T> {
    if Fresh(usable, c, now) then Outcome(c, Some(c.value), false)
    else if reply.Failed? || !accepts(reply.grant.value) then Outcome(c, None, false)
    else Outcome(reply.grant, Some(reply.grant.value), true)
  }

  // ---------------------------------------------------------------- the two caches

  predicate HasToken(t: string) { t != "" }

  predicate AnyToken(t: string) { true }

  class GithubApp {
    var cached: string
    var expires: Time

    constructor ()
      ensures View() == Cache("", 0)
    {
      cached, expires := "", 0;
    }

    function View(): Cache<string>
      reads this
    {
      Cache(cached, expires)
    }

    /** githubApp.token. Whatever the exchange answers is stored, even an empty token. */
    method Token(now: Time, reply: Reply<string>) returns (r: Option<string>)
      modifies this
      ensures View() == Call(HasToken, AnyToken, old(View()), now, reply).cache
      ensures r == Call(HasToken, AnyToken, old(View()), now, reply).result
    {
      if cached != "" && expires - now > 5 * MINUTE {
        return Some(cached);
      }
      match reply
      case Failed => return None;
      case Granted(out) =>
        cached, expires := out.value, out.expires;
        return Some(cached);
    }
  }

  datatype Credentials = Credentials(accessKeyID: string, secretAccessKey: string, sessionToken: string)

  predicate HasKey(c: Credentials) { c.accessKeyID != "" }

  class WebIdentity {
    const roleARN: string
    const tokenFile: string
    var cached: Credentials
    var expiration: Time

    constructor (roleARN: string, tokenFile: string)
      ensures this.roleARN == roleARN && this.tokenFile == tokenFile
      ensures View() == Cache(Credentials("", "", ""), 0)
    {
      this.roleARN, this.tokenFile := roleARN, tokenFile;
      cached, expiration := Credentials("", "", ""), 0;
    }

    function View(): Cache<Credentials>
      reads this
    {
      Cache(cached, expiration)
    }

    predicate Configured() { roleARN != "" && tokenFile != "" }

    /** webIdentity.get. A reply without a key is an error. */
    method GetCredentials(now: Time, reply: Reply<Credentials>) returns (r: Option<Credentials>)
      modifies this
      ensures var answer := if Configured() then reply else Failed;
              View() == Call(HasKey, HasKey, old(View()), now, answer).cache
              && r == Call(HasKey, HasKey, old(View()), now, answer).result
    {
      if cached.accessKeyID != "" && expiration - now > 5 * MINUTE {
        return Some(cached);
      }
      if roleARN == "" || tokenFile == "" {
        return None;
      }
      match reply
      case Failed => return None;
      case Granted(out) =>
        if out.value.accessKeyID == "" {
          return None;
        }
        cached, expiration := out.value, out.expires;
        return Some(cached);
    }
  }

  // ---------------------------------------------------------------- one call

  /** A result is either a grant made by this very call, or a usable cached value
      with more than five minutes left; an error leaves the cache as it was. */
  lemma CallIsSafe<T>(usable: T -> bool, accepts: T -> bool, c: Cache<T>, now: Time, reply: Reply<T>)
    ensures var o := Call(usable, accepts, c, now, reply);
            && (o.result.None? ==> o.cache == c)
            && (o.result.Some? ==> o.result.value == o.cache.value)
            && (o.result.Some? && !o.granted ==> o.cache == c && usable(c.value) && c.expires - now > 5 * 60 * 1_000_000_000)
            && (o.granted ==> reply == Granted(o.cache) && accepts(o.cache.value)
                              && (usable(c.value) ==> c.expires - now <= 5 * 60 * 1_000_000_000))
  {
  }

  // ---------------------------------------------------------------- whole runs

  datatype Request<T> = Request(now: Time, reply: Reply<T>)

  datatype Run<T> = Run(cache: Cache<T>, grants: seq<Time>)

  /** The cache after a run of calls, and when each successful exchange was made. */
  function Play<T>(usable: T -> bool, accepts: T -> bool, start: Cache<T>, calls: seq<Request<T>>): Run<T> {
    if calls == [] then Run(start, []) else
      var before := Play(usable, accepts, start, calls[..|calls| - 1]);
      var q := calls[|calls| - 1];
      var o := Call(usable, accepts, before.cache, q.now, q.reply);
      Run(o.cache, if o.granted then before.grants + [q.now] else before.grants)
  }

  ghost predicate ClockAdvances<T>(calls: seq<Request<T>>) {
    forall i, j | 0 <= i < j < |calls| :: calls[i].now <= calls[j].now
  }

  /** Every grant lasts an hour from the call and is usable. */
  ghost predicate HourGrants<T>(usable: T -> bool, accepts: T -> bool, calls: seq<Request<T>>) {
    forall q | q in calls && q.reply.Granted? && accepts(q.reply.grant.value) ::
      usable(q.reply.grant.value) && q.reply.grant.expires >= q.now + HOUR
  }

  /** Successive exchanges are at least 55 minutes apart. */
  lemma {:induction false} GrantsAreApart<T>(usable: T -> bool, accepts: T -> bool, start: Cache<T>, calls: seq<Request<T>>)
    requires ClockAdvances(calls) && HourGrants(usable, accepts, calls)
    ensures var r := Play(usable, accepts, start, calls);
            && (forall i | 0 < i < |r.grants| :: r.grants[i] >= r.grants[i - 1] + (HOUR - MARGIN))
            && (r.grants != [] ==> usable(r.cache.value) && r.cache.expires >= r.grants[|r.grants| - 1] + HOUR)
            && (calls == [] ==> r.grants == [])
  {
    if calls != [] {
      var k := |calls| - 1;
      assert calls[k] in calls && forall q | q in calls[..k] :: q in calls;
      GrantsAreApart(usable, accepts, start, calls[..k]);
      CallIsSafe(usable, accepts, Play(usable, accepts, start, calls[..k]).cache, calls[k].now, calls[k].reply);
    }
  }

  lemma {:induction false} ApartSpans(times: seq<Time>, gap: Time)
    requires times != [] && forall i | 0 < i < |times| :: times[i] >= times[i - 1] + gap
    ensures times[|times| - 1] - times[0] >= (|times| - 1) * gap
  {
    if |times| > 1 {
      var front := times[..|times| - 1];
      ApartSpans(front, gap);
      assert (|times| - 1) * gap == (|front| - 1) * gap + gap;
    }
  }

  /** Over any run with a clock that does not go back and usable one-hour grants,
      n successful exchanges span at least (n - 1) * 55 minutes. */
  lemma ExchangesAreRare<T>(usable: T -> bool, accepts: T -> bool, start: Cache<T>, calls: seq<Request<T>>)
    requires ClockAdvances(calls) && HourGrants(usable, accepts, calls)
    ensures var g := Play(usable, accepts, start, calls).grants;
            g != [] ==> g[|g| - 1] - g[0] >= (|g| - 1) * (55 * MINUTE)
  {
    GrantsAreApart(usable, accepts, start, calls);
    var g := Play(usable, accepts, start, calls).grants;
    if g != [] {
      ApartSpans(g, HOUR - MARGIN);
    }
  }

  /** The AWS cache never stores an unusable grant, so hour-long grants are enough for it. */
  lemma WebIdentityGrantsAreUsable(calls: seq<Request<Credentials>>)
    requires forall q | q in calls && q.reply.Granted? :: q.reply.grant.expires >= q.now + HOUR
    ensures HourGrants(HasKey, HasKey, calls)
  {
  }

  /** So for the AWS credentials the bound needs nothing but a clock that does not
      go back and replies that last an hour. */
  lemma WebIdentityExchangesAreRare(start: Cache<Credentials>, calls: seq<Request<Credentials>>)
    requires ClockAdvances(calls)
    requires forall q | q in calls && q.reply.Granted? :: q.reply.grant.expires >= q.now + HOUR
    ensures var g := Play(HasKey, HasKey, start, calls).grants;
            g != [] ==> g[|g| - 1] - g[0] >= (|g| - 1) * (55 * MINUTE)
  {
    WebIdentityGrantsAreUsable(calls);
    ExchangesAreRare(HasKey, HasKey, start, calls);
  }

  /** The GitHub cache stores an empty token too. After a one-hour grant at time
      t the next 55 minutes are served from the cache exactly when the token is
      not empty; an empty one is exchanged again at once. */
  lemma GithubReusesIff(token: string, t: Time)
    ensures (forall now, reply | t <= now < t + 55 * MINUTE :: !Exchanges(token, t, now, reply)) <==> token != ""
  {
    assert token == "" ==> Exchanges(token, t, t, Granted(Cache("x", t + HOUR)));
  }

  ghost predicate Exchanges(token: string, since: Time, now: Time, reply: Reply<string>) {
    Call(HasToken, AnyToken, Cache(token, since + HOUR), now, reply).granted
  }
}
