/** Page retrieval with retries. The network is a script: the outcome of the
    request made by attempt k is the k-th scripted outcome (an attempt past the
    end of the script meets a network error). Sleeping is recorded as the amounts
    requested, attempt by attempt. */
module HtmlRetriever {
  import opened Strings
  import opened Wrappers
  import opened Url
  import opened Codec

  /** What one request comes to. `HttpError` carries the status the server sent
      (`raise_for_status` raises for 400 to 599). */
  datatype Outcome =
    | Timeout
    | HttpError(code: int)
    | NetworkError
    | Body(text: string, encoding: Option<string>, contentType: string)

  /** The status the error handler works with: a number, or 'unknown'. */
  datatype Status = Code(code: int) | Unknown

  /** The `rate_limiter` attribute: never assigned, None, or a shared limiter. */
  datatype Slot = Missing | Absent | Present

  /** The retriever's settings; `readsStatus` tells whether the error handler
      reads the status of every error response. */
  datatype Config = Config(requestDelay: real, maxRetries: int, limiter: Slot, readsStatus: bool)

  /** The result dictionary of a successful retrieval. */
  datatype Page = Page(html: string, url: string, waybackUrl: string, size: nat, encoding: string)

  datatype Fetch = Fetched(page: Page) | NotFetched | Raised(error: string)

  /** One attempt: the sleep before it, whether the limiter was asked for a token,
      and the extra sleep after a throttling or server error (0 if none). */
  datatype Attempt = Attempt(wait: real, acquired: bool, extra: real)

  /** A retrieval: its result and its attempts in order. */
  datatype Trace = Trace(result: Fetch, attempts: seq<Attempt>)

  /** What the handler of one outcome does: retry, or finish with a result. */
  datatype Decision = Retry(extra: real) | Finish(result: Fetch, extra: real)

  /** `_is_valid_wayback_url`: an http or https URL whose host part mentions
      web.archive.org and whose path holds "/web/"; a parse error means invalid. */
  predicate IsValidWaybackUrl(url: string) {
    match ParseUrl(url, "")
    case Err(_) => false
    case Ok(p) => (p.scheme == "http" || p.scheme == "https") && Contains(p.netloc, "web.archive.org") && Contains(p.path, "/web/")
  }

  function Pow2(k: nat): (r: nat)
    ensures r >= 1
  {
    if k == 0 then 1 else 2 * Pow2(k - 1)
  }

  /** The sleep before attempt k: the request delay, doubled for every retry. */
  function Backoff(requestDelay: real, k: nat): real {
    if k == 0 then requestDelay else 2.0 * Backoff(requestDelay, k - 1)
  }

  /** The sleep before attempt k is request_delay * 2^k. */
  lemma {:induction false} BackoffClosedForm(requestDelay: real, k: nat)
    ensures Backoff(requestDelay, k) == requestDelay * (Pow2(k) as real)
  {
    if k > 0 {
      BackoffClosedForm(requestDelay, k - 1);
      assert (Pow2(k) as real) == 2.0 * (Pow2(k - 1) as real);
    }
  }

  /** The truth value of a requests `Response`: false exactly for the statuses
      `raise_for_status` rejects. */
  predicate ResponseTruthy(code: int) {
    !(400 <= code < 600)
  }

  /** The status the handler sees. As written it tests the response's truth
      value, so every error response reads as 'unknown'. */
  function StatusRead(readsStatus: bool, code: int): (s: Status)
    ensures readsStatus ==> s == Code(code)
    ensures !readsStatus && 400 <= code < 600 ==> s == Unknown
  {
    if readsStatus || ResponseTruthy(code) then Code(code) else Unknown
  }

  predicate IsPermanent(s: Status) {
    s.Code? && (s.code == 404 || s.code == 403 || s.code == 410)
  }

  predicate IsThrottled(s: Status) {
    s.Code? && (s.code == 429 || 500 <= s.code < 600)
  }

  /** A body too short to be a page: empty, or under 100 characters once stripped. */
  predicate IsShort(text: string) {
    text == "" || |Strip(text)| < 100
  }

  /** The result dictionary: the body as received, the two URLs as given, the
      UTF-8 size, and the response encoding or 'utf-8'. */
  function PageOf(text: string, encoding: Option<string>, originalUrl: string, waybackUrl: string): (p: Page)
    ensures p.html == text && p.url == originalUrl && p.waybackUrl == waybackUrl
    ensures p.size == Utf8Length(text) && p.encoding != ""
  {
    Page(text, originalUrl, waybackUrl, Utf8Length(text), if encoding.Some? && encoding.value != "" then encoding.value else "utf-8")
  }

  function OutcomeAt(script: seq<Outcome>, k: nat): Outcome {
    if k < |script| then script[k] else NetworkError
  }

  /** The handler of attempt k's outcome. */
  function Decide(cfg: Config, waybackUrl: string, originalUrl: string, outcome: Outcome, k: nat): (d: Decision)
    ensures d.Finish? && d.result.Fetched? ==> outcome.Body?
  {
    match outcome
    case Body(text, encoding, _) =>
      if IsShort(text) && k < cfg.maxRetries then Retry(0.0)
      else Finish(Fetched(PageOf(text, encoding, originalUrl, waybackUrl)), 0.0)
    case Timeout =>
      if k >= cfg.maxRetries then Finish(NotFetched, 0.0) else Retry(0.0)
    case HttpError(code) =>
      var status := StatusRead(cfg.readsStatus, code);
      if IsPermanent(status) then Finish(NotFetched, 0.0)
      else
        var extra := if IsThrottled(status) then Backoff(cfg.requestDelay, k + 1) else 0.0;
        if k >= cfg.maxRetries then Finish(NotFetched, extra) else Retry(extra)
    case NetworkError =>
      if k >= cfg.maxRetries then Finish(NotFetched, 0.0) else Retry(0.0)
  }

  /** The content type of a body is only logged: it never changes the decision. */
  lemma ContentTypeIgnored(cfg: Config, waybackUrl: string, originalUrl: string, text: string, encoding: Option<string>, t1: string, t2: string, k: nat)
    ensures Decide(cfg, waybackUrl, originalUrl, Body(text, encoding, t1), k) == Decide(cfg, waybackUrl, originalUrl, Body(text, encoding, t2), k)
  {
  }

  /** An attempt gives a page exactly when its outcome is a body that is long
      enough, or any body on the last attempt, and the page is that body's,
      with no extra sleep; a short body before the last attempt is retried
      with no extra sleep. */
  lemma DecideBody(cfg: Config, waybackUrl: string, originalUrl: string, outcome: Outcome, k: nat)
    ensures var d := Decide(cfg, waybackUrl, originalUrl, outcome, k);
      && (d.Finish? && d.result.Fetched? <==> outcome.Body? && (!IsShort(outcome.text) || k >= cfg.maxRetries))
      && (d.Finish? && d.result.Fetched? ==>
            d.result.page == PageOf(outcome.text, outcome.encoding, originalUrl, waybackUrl) && d.extra == 0.0)
      && (outcome.Body? && IsShort(outcome.text) && k < cfg.maxRetries ==> d == Retry(0.0))
  {
  }

  /** A refused status finishes without a result and without an extra sleep. */
  lemma DecidePermanent(cfg: Config, waybackUrl: string, originalUrl: string, code: int, k: nat)
    requires IsPermanent(StatusRead(cfg.readsStatus, code))
    ensures Decide(cfg, waybackUrl, originalUrl, HttpError(code), k) == Finish(NotFetched, 0.0)
  {
  }

  /** Any failure on the last allowed attempt finishes without a result. */
  lemma DecideExhausted(cfg: Config, waybackUrl: string, originalUrl: string, outcome: Outcome, k: nat)
    requires !outcome.Body? && k >= cfg.maxRetries
    ensures var d := Decide(cfg, waybackUrl, originalUrl, outcome, k);
      d.Finish? && d.result == NotFetched
  {
  }

  /** A throttling or server status adds a sleep of request_delay * 2^(k+1) after
      attempt k; nothing else adds one. */
  lemma DecideExtraSleep(cfg: Config, waybackUrl: string, originalUrl: string, outcome: Outcome, k: nat)
    ensures var d := Decide(cfg, waybackUrl, originalUrl, outcome, k);
      if outcome.HttpError? && IsThrottled(StatusRead(cfg.readsStatus, outcome.code))
      then d.extra == Backoff(cfg.requestDelay, k + 1)
      else d.extra == 0.0
  {
  }

  /** The decision on each allowed attempt, 0 to max_retries. */
  function Decisions(cfg: Config, waybackUrl: string, originalUrl: string, script: seq<Outcome>): (ds: seq<Decision>)
    ensures |ds| == if cfg.maxRetries >= 0 then cfg.maxRetries + 1 else 0
    ensures forall k :: 0 <= k < |ds| ==> ds[k] == Decide(cfg, waybackUrl, originalUrl, OutcomeAt(script, k), k)
    ensures |ds| > 0 ==> ds[|ds| - 1].Finish?
  {
    var n := if cfg.maxRetries >= 0 then cfg.maxRetries + 1 else 0;
    seq(n, k requires 0 <= k < n => Decide(cfg, waybackUrl, originalUrl, OutcomeAt(script, k), k))
  }

  /** Attempts `log` in front of the rest of a retrieval. */
  function Then(log: seq<Attempt>, t: Trace): Trace {
    Trace(t.result, log + t.attempts)
  }

  /** The attempts from attempt k on, given the decision of every attempt. */
  function Run(cfg: Config, ds: seq<Decision>, k: nat): (t: Trace)
    ensures |t.attempts| <= if k <= |ds| then |ds| - k else 0
    ensures k >= |ds| ==> t == Trace(NotFetched, [])
    decreases |ds| - k
  {
    if k >= |ds| then Trace(NotFetched, [])
    else
      var wait := Backoff(cfg.requestDelay, k);
      if cfg.limiter == Missing then Trace(Raised("AttributeError"), [Attempt(wait, false, 0.0)])
      else
        var acquired := cfg.limiter == Present;
        match ds[k]
        case Retry(extra) => Then([Attempt(wait, acquired, extra)], Run(cfg, ds, k + 1))
        case Finish(result, extra) => Trace(result, [Attempt(wait, acquired, extra)])
  }

  /** One step of a run: attempt k raises, finishes, or retries and goes on. */
  lemma RunUnfold(cfg: Config, ds: seq<Decision>, k: nat)
    requires k < |ds|
    ensures var a := Attempt(Backoff(cfg.requestDelay, k), cfg.limiter == Present, ds[k].extra);
      && (cfg.limiter == Missing ==> Run(cfg, ds, k) == Trace(Raised("AttributeError"), [Attempt(Backoff(cfg.requestDelay, k), false, 0.0)]))
      && (cfg.limiter != Missing && ds[k].Finish? ==> Run(cfg, ds, k) == Trace(ds[k].result, [a]))
      && (cfg.limiter != Missing && ds[k].Retry? ==> Run(cfg, ds, k) == Then([a], Run(cfg, ds, k + 1)))
  {
  }

  lemma ThenThen(log: seq<Attempt>, a: Attempt, t: Trace)
    ensures Then(log, Then([a], t)) == Then(log + [a], t)
  {
    assert log + ([a] + t.attempts) == (log + [a]) + t.attempts;
  }

  /** The attempt loop of `retrieve_page` on a valid Wayback URL. */
  function Attempts(cfg: Config, waybackUrl: string, originalUrl: string, script: seq<Outcome>): (t: Trace)
    ensures |t.attempts| <= if cfg.maxRetries >= 0 then cfg.maxRetries + 1 else 0
  {
    Run(cfg, Decisions(cfg, waybackUrl, originalUrl, script), 0)
  }

  /** `retrieve_page`: an invalid Wayback URL gives nothing without any attempt;
      otherwise the attempt loop. */
  function Retrieval(cfg: Config, waybackUrl: string, originalUrl: string, script: seq<Outcome>): (t: Trace)
    ensures !IsValidWaybackUrl(waybackUrl) ==> t == Trace(NotFetched, [])
    ensures |t.attempts| <= if cfg.maxRetries >= 0 then cfg.maxRetries + 1 else 0
  {
    if !IsValidWaybackUrl(waybackUrl) then Trace(NotFetched, [])
    else Attempts(cfg, waybackUrl, originalUrl, script)
  }

  /** Attempt k + j of a run sleeps request_delay * 2^(k+j) first. */
  lemma {:induction false} RunWaits(cfg: Config, ds: seq<Decision>, k: nat, j: nat)
    requires j < |Run(cfg, ds, k).attempts|
    ensures Run(cfg, ds, k).attempts[j].wait == Backoff(cfg.requestDelay, k + j)
    decreases j
  {
    if j > 0 {
      RunWaits(cfg, ds, k + 1, j - 1);
      assert Run(cfg, ds, k).attempts[j] == Run(cfg, ds, k + 1).attempts[j - 1];
    }
  }

  /** With a limiter attribute in place, a run from attempt k is a row of retries
      ended by one finishing attempt whose decision gives the result. */
  lemma {:induction false} RunShape(cfg: Config, ds: seq<Decision>, k: nat)
    requires cfg.limiter != Missing && k < |ds| && ds[|ds| - 1].Finish?
    ensures var t := Run(cfg, ds, k);
      var n := |t.attempts|;
      && n >= 1
      && (forall j :: k <= j < k + n - 1 ==> ds[j].Retry?)
      && ds[k + n - 1] == Finish(t.result, t.attempts[n - 1].extra)
    decreases |ds| - k
  {
    if ds[k].Retry? {
      RunShape(cfg, ds, k + 1);
      var t := Run(cfg, ds, k);
      var rest := Run(cfg, ds, k + 1);
      assert |t.attempts| == 1 + |rest.attempts|;
      assert t.attempts[|t.attempts| - 1] == rest.attempts[|rest.attempts| - 1];
    }
  }

  /** Attempt j of a retrieval sleeps request_delay * 2^j before its request. */
  lemma AttemptsWaits(cfg: Config, waybackUrl: string, originalUrl: string, script: seq<Outcome>, j: nat)
    requires j < |Attempts(cfg, waybackUrl, originalUrl, script).attempts|
    ensures Attempts(cfg, waybackUrl, originalUrl, script).attempts[j].wait == Backoff(cfg.requestDelay, j)
  {
    RunWaits(cfg, Decisions(cfg, waybackUrl, originalUrl, script), 0, j);
  }

  /** With a limiter attribute in place, every attempt but the last of a valid
      retrieval was told to retry, and the last one's decision is the result: the
      loop never runs out without a decision. */
  lemma AttemptsShape(cfg: Config, waybackUrl: string, originalUrl: string, script: seq<Outcome>)
    requires cfg.limiter != Missing && cfg.maxRetries >= 0
    ensures var t := Attempts(cfg, waybackUrl, originalUrl, script);
      var n := |t.attempts|;
      && n >= 1
      && (forall j :: 0 <= j < n - 1 ==> Decide(cfg, waybackUrl, originalUrl, OutcomeAt(script, j), j).Retry?)
      && Decide(cfg, waybackUrl, originalUrl, OutcomeAt(script, n - 1), n - 1) == Finish(t.result, t.attempts[n - 1].extra)
  {
    RunShape(cfg, Decisions(cfg, waybackUrl, originalUrl, script), 0);
  }

  /** A refused status (404, 403 or 410, as the handler reads it) ends the
      retrieval at the attempt that met it, with no result. */
  lemma PermanentEndsAttempts(cfg: Config, waybackUrl: string, originalUrl: string, script: seq<Outcome>, j: nat)
    requires cfg.limiter != Missing
    requires j < |Attempts(cfg, waybackUrl, originalUrl, script).attempts|
    requires OutcomeAt(script, j).HttpError? && IsPermanent(StatusRead(cfg.readsStatus, OutcomeAt(script, j).code))
    ensures var t := Attempts(cfg, waybackUrl, originalUrl, script);
      |t.attempts| == j + 1 && t.result == NotFetched
  {
    AttemptsShape(cfg, waybackUrl, originalUrl, script);
    DecidePermanent(cfg, waybackUrl, originalUrl, OutcomeAt(script, j).code, j);
  }

  /** A page comes back only from a body: the last attempt's outcome, as
      received, with the URLs as given. */
  lemma FetchedFromLastBody(cfg: Config, waybackUrl: string, originalUrl: string, script: seq<Outcome>)
    requires Attempts(cfg, waybackUrl, originalUrl, script).result.Fetched?
    ensures var t := Attempts(cfg, waybackUrl, originalUrl, script);
      var last := OutcomeAt(script, |t.attempts| - 1);
      && |t.attempts| >= 1 && last.Body?
      && t.result.page == PageOf(last.text, last.encoding, originalUrl, waybackUrl)
  {
    var t := Attempts(cfg, waybackUrl, originalUrl, script);
    assert cfg.limiter != Missing && cfg.maxRetries >= 0;
    AttemptsShape(cfg, waybackUrl, originalUrl, script);
    var last := OutcomeAt(script, |t.attempts| - 1);
    DecideBody(cfg, waybackUrl, originalUrl, last, |t.attempts| - 1);
  }

  /** As written, the first attempt of every valid retrieval sleeps the request
      delay and then fails on the missing `rate_limiter` attribute, before any
      request is made. */
  lemma AsWrittenAlwaysRaises(cfg: Config, waybackUrl: string, originalUrl: string, script: seq<Outcome>)
    requires cfg.limiter == Missing && cfg.maxRetries >= 0 && IsValidWaybackUrl(waybackUrl)
    ensures Retrieval(cfg, waybackUrl, originalUrl, script) == Trace(Raised("AttributeError"), [Attempt(cfg.requestDelay, false, 0.0)])
  {
  }

  /** As written, a 404 on an attempt that is not the last is retried like any
      other error, because the status reads as 'unknown'. */
  lemma AsWrittenRetriesNotFound(cfg: Config, waybackUrl: string, originalUrl: string, k: nat)
    requires !cfg.readsStatus && k < cfg.maxRetries
    ensures Decide(cfg, waybackUrl, originalUrl, HttpError(404), k) == Retry(0.0)
  {
  }

  /** With the status read, a 404 finishes at once. */
  lemma CorrectedStopsOnNotFound(cfg: Config, waybackUrl: string, originalUrl: string, k: nat)
    requires cfg.readsStatus
    ensures Decide(cfg, waybackUrl, originalUrl, HttpError(404), k) == Finish(NotFetched, 0.0)
  {
  }

  /** `HTMLRetriever`. */
  class HtmlRetriever {
    const requestDelay: real
    const maxRetries: int
    const limiter: Slot
    const readsStatus: bool

    /** The constructor as written: the limiter argument is never stored, and
        the handler tests the response's truth value. */
    constructor (requestDelay: real, maxRetries: int, rateLimiterGiven: bool)
      ensures this.requestDelay == requestDelay && this.maxRetries == maxRetries
      ensures limiter == Missing && !readsStatus
    {
      this.requestDelay := requestDelay;
      this.maxRetries := maxRetries;
      limiter := Missing;
      readsStatus := false;
    }

    /** The evidently intended constructor: the limiter argument is stored (None
        when not given), and the handler reads the status of the response. */
    constructor Corrected(requestDelay: real, maxRetries: int, rateLimiterGiven: bool)
      ensures this.requestDelay == requestDelay && this.maxRetries == maxRetries
      ensures limiter == (if rateLimiterGiven then Present else Absent) && readsStatus
    {
      this.requestDelay := requestDelay;
      this.maxRetries := maxRetries;
      limiter := if rateLimiterGiven then Present else Absent;
      readsStatus := true;
    }

    function Settings(): Config {
      Config(requestDelay, maxRetries, limiter, readsStatus)
    }

    /** `retrieve_page`: the validity check, then the attempt loop. */
    method RetrievePage(waybackUrl: string, originalUrl: string, script: seq<Outcome>) returns (result: Fetch, attempts: seq<Attempt>)
      ensures Trace(result, attempts) == Retrieval(Settings(), waybackUrl, originalUrl, script)
    {
      if !IsValidWaybackUrl(waybackUrl) {
        return NotFetched, [];
      }
      result, attempts := AttemptLoop(waybackUrl, originalUrl, script);
    }

    /** The attempt loop of `retrieve_page`, with its early returns. */
    method AttemptLoop(waybackUrl: string, originalUrl: string, script: seq<Outcome>) returns (result: Fetch, attempts: seq<Attempt>)
      ensures Trace(result, attempts) == Attempts(Settings(), waybackUrl, originalUrl, script)
    {
      var cfg := Settings();
      ghost var ds := Decisions(cfg, waybackUrl, originalUrl, script);
      attempts := [];
      var attempt: nat := 0;
      while attempt < maxRetries + 1
        invariant attempt <= |ds| || maxRetries < 0
        invariant Then(attempts, Run(cfg, ds, attempt)) == Run(cfg, ds, 0)
        decreases maxRetries + 1 - attempt
      {
        // request_delay * 2^attempt, by BackoffClosedForm
        var wait := Backoff(requestDelay, attempt);
        RunUnfold(cfg, ds, attempt);
        if limiter == Missing {
          ThenThen(attempts, Attempt(wait, false, 0.0), Trace(Raised("AttributeError"), []));
          attempts := attempts + [Attempt(wait, false, 0.0)];
          return Raised("AttributeError"), attempts;
        }
        var acquired := limiter == Present;
        var decision := Decide(cfg, waybackUrl, originalUrl, OutcomeAt(script, attempt), attempt);
        assert decision == ds[attempt];
        var a := Attempt(wait, acquired, decision.extra);
        if decision.Finish? {
          ThenThen(attempts, a, Trace(decision.result, []));
          attempts := attempts + [a];
          return decision.result, attempts;
        }
        ThenThen(attempts, a, Run(cfg, ds, attempt + 1));
        attempts := attempts + [a];
        attempt := attempt + 1;
      }
      assert Run(cfg, ds, attempt) == Trace(NotFetched, []);
      assert attempts + [] == attempts;
      return NotFetched, attempts;
    }
  }

  /** One entry of `retrieve_multiple`'s input list, with the outcomes its
      requests meet; a missing 'url' falls back to the Wayback URL. */
  datatype Request = Request(waybackUrl: Option<string>, url: Option<string>, script: seq<Outcome>)

  function OriginalOf(r: Request): Option<string> {
    if r.url.Some? then r.url else r.waybackUrl
  }

  /** The result of one entry: a missing Wayback URL is never valid. */
  function FetchOf(cfg: Config, r: Request): Fetch {
    if r.waybackUrl.None? then NotFetched
    else
      var original := if r.url.Some? then r.url.value else r.waybackUrl.value;
      Retrieval(cfg, r.waybackUrl.value, original, r.script).result
  }

  /** The result of each entry in turn. */
  function Fetches(cfg: Config, requests: seq<Request>): (fs: seq<Fetch>)
    ensures |fs| == |requests|
    ensures forall i :: 0 <= i < |fs| ==> fs[i] == FetchOf(cfg, requests[i])
  {
    seq(|requests|, i requires 0 <= i < |requests| => FetchOf(cfg, requests[i]))
  }

  /** What a batch comes to: the pages collected, and the error that ended it
      early, if any. */
  datatype Batch = Batch(pages: seq<Page>, raised: Option<string>)

  /** `retrieve_multiple` as a value over the entries' results: the successful
      pages in input order; an error raised by one retrieval ends the batch. */
  function Collected(fs: seq<Fetch>): (b: Batch)
    ensures |b.pages| <= |fs|
  {
    if fs == [] then Batch([], None)
    else
      match fs[0]
      case Raised(e) => Batch([], Some(e))
      case NotFetched => Collected(fs[1..])
      case Fetched(p) =>
        var rest := Collected(fs[1..]);
        Batch([p] + rest.pages, rest.raised)
  }

  /** Batches compose: the pages of a batch of two parts are the pages of the
      first part followed by those of the second, when the first raised nothing. */
  lemma {:induction false} CollectedAppend(a: seq<Fetch>, b: seq<Fetch>)
    requires Collected(a).raised.None?
    ensures Collected(a + b) == Batch(Collected(a).pages + Collected(b).pages, Collected(b).raised)
    decreases |a|
  {
    if a == [] {
      assert a + b == b;
    } else {
      assert (a + b)[0] == a[0] && (a + b)[1..] == a[1..] + b;
      CollectedAppend(a[1..], b);
      if a[0].Fetched? {
        var x, y := Collected(a[1..]).pages, Collected(b).pages;
        assert [a[0].page] + (x + y) == ([a[0].page] + x) + y;
      }
    }
  }

  /** A batch that raised ends there, whatever follows. */
  lemma {:induction false} CollectedRaisedPrefix(a: seq<Fetch>, b: seq<Fetch>)
    requires Collected(a).raised.Some?
    ensures Collected(a + b) == Collected(a)
    decreases |a|
  {
    assert (a + b)[0] == a[0] && (a + b)[1..] == a[1..] + b;
    if !a[0].Raised? {
      CollectedRaisedPrefix(a[1..], b);
    }
  }

  /** The batch of one entry: its page, nothing, or its error. */
  lemma CollectedOne(f: Fetch)
    ensures Collected([f]) == match f
      case Fetched(p) => Batch([p], None)
      case NotFetched => Batch([], None)
      case Raised(e) => Batch([], Some(e))
  {
    assert [f][1..] == [];
  }

  /** One entry more that does not raise: a page is appended, a failure adds
      nothing. */
  lemma CollectedNext(fs: seq<Fetch>, i: nat, pages: seq<Page>)
    requires i < |fs| && Collected(fs[..i]) == Batch(pages, None) && !fs[i].Raised?
    ensures Collected(fs[..i + 1]) == Batch(if fs[i].Fetched? then pages + [fs[i].page] else pages, None)
  {
    PrefixSnoc(fs, i);
    CollectedAppend(fs[..i], [fs[i]]);
    CollectedOne(fs[i]);
  }

  lemma PrefixSnoc(fs: seq<Fetch>, i: nat)
    requires i < |fs|
    ensures fs[..i + 1] == fs[..i] + [fs[i]] && fs == fs[..i + 1] + fs[i + 1..]
  {
  }

  /** An entry that raises ends the batch with the pages so far. */
  lemma CollectedStop(fs: seq<Fetch>, i: nat, pages: seq<Page>)
    requires i < |fs| && Collected(fs[..i]) == Batch(pages, None) && fs[i].Raised?
    ensures Collected(fs) == Batch(pages, Some(fs[i].error))
  {
    PrefixSnoc(fs, i);
    CollectedAppend(fs[..i], [fs[i]]);
    CollectedOne(fs[i]);
    assert pages + [] == pages;
    CollectedRaisedPrefix(fs[..i + 1], fs[i + 1..]);
  }

  /** A batch in which nothing raised holds exactly the fetched pages, in order. */
  lemma {:induction false} CollectedPages(fs: seq<Fetch>)
    requires forall i :: 0 <= i < |fs| ==> !fs[i].Raised?
    ensures Collected(fs).raised.None?
    ensures forall p :: p in Collected(fs).pages <==> Fetched(p) in fs
  {
    if fs != [] {
      assert fs == [fs[0]] + fs[1..];
      CollectedPages(fs[1..]);
    }
  }

  /** One entry of `retrieve_multiple`: its 'wayback_url', and its 'url' or else
      the Wayback URL as the original. */
  method RetrieveEntry(retriever: HtmlRetriever, requests: seq<Request>, i: nat) returns (fetch: Fetch)
    requires i < |requests|
    ensures fetch == Fetches(retriever.Settings(), requests)[i]
  {
    var r := requests[i];
    if r.waybackUrl.None? {
      return NotFetched;
    }
    var original := if r.url.Some? then r.url.value else r.waybackUrl.value;
    var attempts;
    fetch, attempts := retriever.RetrievePage(r.waybackUrl.value, original, r.script);
  }

  /** `retrieve_multiple`: one retrieval per entry, appending each success. */
  method RetrieveMultiple(retriever: HtmlRetriever, requests: seq<Request>) returns (results: seq<Page>, raised: Option<string>)
    ensures Batch(results, raised) == Collected(Fetches(retriever.Settings(), requests))
  {
    var cfg := retriever.Settings();
    ghost var fs := Fetches(cfg, requests);
    results := [];
    var i := 0;
    while i < |requests|
      invariant 0 <= i <= |requests|
      invariant Collected(fs[..i]) == Batch(results, None)
    {
      var fetch := RetrieveEntry(retriever, requests, i);
      if fetch.Raised? {
        CollectedStop(fs, i, results);
        return results, Some(fetch.error);
      }
      CollectedNext(fs, i, results);
      if fetch.Fetched? {
        results := results + [fetch.page];
      }
      i := i + 1;
    }
    assert fs[..i] == fs;
    raised := None;
  }
}
