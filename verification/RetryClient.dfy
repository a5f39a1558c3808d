/** The retry loop of internal/anysdk/client.go over arbitrary transport outcomes. */
module RetryClient {
  import opened Wrappers
  import opened RetryPolicy

  datatype Error = ReadFailed(text: string) | SendFailed(text: string) | Cancelled

  /** What one request meets. */
  datatype Outcome = Failed(text: string) | Answered(status: int)

  /** A reader: whoever reads it empties it. */
  class Body {
    var rest: string

    constructor (content: string)
      ensures rest == content
    {
      rest := content;
    }
  }

  class Request {
    const verb: string
    var body: Option<Body>

    constructor (verb: string, body: Option<Body>)
      ensures this.verb == verb && this.body == body
    {
      this.verb, this.body := verb, body;
    }
  }

  class Response {
    const status: int
    var closed: bool

    constructor (status: int)
      ensures this.status == status && !closed
    {
      this.status, closed := status, false;
    }
  }

  /** What the request carries if it is sent now. */
  ghost function Carries(req: Request): Option<string>
    reads req, if req.body.Some? then {req.body.value} else {}
  {
    if req.body.Some? then Some(req.body.value.rest) else None
  }

  predicate Retryable(p: Policy, o: Outcome) {
    match o case Failed(_) => true case Answered(status) => status in StatusCodes(p)
  }

  /** What a request that met `o` gives as its error. */
  function ErrorAfter(o: Outcome): Option<Error> {
    match o case Failed(text) => Some(SendFailed(text)) case Answered(_) => None
  }

  function Attempts(p: Policy, verb: string): nat {
    if MethodRetryable(p, verb) then MaxAttempts(p) else 1
  }

  /**
   A failed request is always worth another attempt, a response for its status only. Calls by the methods in force
   have as many attempts as the policy says, other calls one.
   */
  lemma {:induction false} AttemptsExactly(p: Policy, verb: string, o: Outcome)
    ensures Retryable(p, o) <==>
      (o.Failed? || if p.statusCodes != [] then o.status in p.statusCodes else o.status in {408, 429, 502, 503, 504})
    ensures var allowed := if p.methods != [] then verb in p.methods || "*" in p.methods else verb in {"GET", "HEAD"};
      Attempts(p, verb) == if !allowed then 1 else if p.maxAttempts >= 1 then p.maxAttempts else 3
  {
  }

  /** The transport, clock and noise one call runs against, with a log of what the call did. */
  class Wire {
    const outcome: nat -> Outcome
    const noise: nat -> real
    const interrupts: nat -> bool
    var sent: seq<Option<string>>
    var answers: seq<Response>
    var waits: seq<real>

    constructor (outcome: nat -> Outcome, noise: nat -> real, interrupts: nat -> bool)
      ensures this.outcome == outcome && this.noise == noise && this.interrupts == interrupts
      ensures sent == [] && answers == [] && waits == []
    {
      this.outcome, this.noise, this.interrupts := outcome, noise, interrupts;
      sent, answers, waits := [], [], [];
    }

    /** Sends the request, which empties its body. */
    method Do(req: Request) returns (resp: Option<Response>, err: Option<Error>)
      modifies this`sent, this`answers, if req.body.Some? then {req.body.value} else {}
      ensures sent == old(sent) + [old(Carries(req))]
      ensures match outcome(|old(sent)|)
        case Failed(text) => resp == None && err == Some(SendFailed(text)) && answers == old(answers)
        case Answered(status) =>
          && resp.Some? && err == None && fresh(resp.value) && answers == old(answers) + [resp.value]
          && resp.value.status == status && !resp.value.closed
    {
      var content := None;
      if req.body.Some? {
        content := Some(req.body.value.rest);
        req.body.value.rest := "";
      }
      var o := outcome(|sent|);
      sent := sent + [content];
      match o
      case Failed(text) =>
        return None, Some(SendFailed(text));
      case Answered(status) =>
        var r := new Response(status);
        answers := answers + [r];
        return Some(r), None;
    }

    /** Reads the request body once, so that every attempt can be given it anew. */
    method Prepare(req: Request, maxAttempts: nat, readError: Option<string>)
            returns (bytes: Option<string>, err: Option<Error>)
      modifies req, if req.body.Some? then {req.body.value} else {}
      ensures err == if req.body.Some? && maxAttempts > 1 && readError.Some? then Some(ReadFailed(readError.value))
          else None
      ensures err == None ==> Carries(req) == old(Carries(req))
      ensures bytes == if err == None && maxAttempts > 1 then old(Carries(req)) else None
      ensures req.body == old(req.body) || (req.body.Some? && fresh(req.body.value))
      ensures req.body.Some? <==> old(req.body).Some?
    {
      bytes, err := None, None;
      if req.body.Some? && maxAttempts > 1 {
        var text := req.body.value.rest;
        req.body.value.rest := "";
        if readError.Some? {
          return None, Some(ReadFailed(readError.value));
        }
        bytes := Some(text);
        var again := new Body(text);
        req.body := Some(again);
      }
    }

    /** Gives the request its body anew. */
    method Refill(req: Request, bytes: Option<string>)
      modifies req
      ensures if bytes.Some? then Carries(req) == bytes && req.body.Some? && fresh(req.body.value)
          else req.body == old(req.body)
      ensures req.body == None ==> Carries(req) == None
    {
      if bytes.Some? {
        var again := new Body(bytes.value);
        req.body := Some(again);
      }
    }

    /** Waits before the attempt after `attempt`, and says whether the wait was cut short. */
    method Pause(p: Policy, attempt: nat) returns (stop: bool)
      requires forall n :: -1.0 <= noise(n) <= 1.0
      requires GoodWaits(p, waits) && |waits| == attempt - 1
      modifies this`waits
      ensures GoodWaits(p, waits) && |waits| == attempt && waits[..attempt - 1] == old(waits)
      ensures stop <==> CutsShort(waits, attempt - 1)
    {
      var delay := BackoffFor(p, attempt, noise(|waits|));
      waits := waits + [delay];
      return delay > 0.0 && interrupts(|waits| - 1);
    }

    /** The waits follow the policy. */
    ghost predicate GoodWaits(p: Policy, w: seq<real>) {
      && (forall k :: 0 <= k < |w| ==> 0.0 <= w[k] <= MaxDelay(p))
      && (JitterFraction(p) == 0.0 ==> forall k :: 0 <= k < |w| ==> w[k] == BaseDelay(p, k + 1))
    }

    /** Wait `k` was cut short. */
    predicate CutsShort(w: seq<real>, k: nat)
      requires k < |w|
    {
      w[k] > 0.0 && interrupts(k)
    }

    ghost predicate Uncut(w: seq<real>) {
      forall k :: 0 <= k < |w| ==> !CutsShort(w, k)
    }

    lemma {:induction false} OneMoreUncut(w: seq<real>, longer: seq<real>)
      requires Uncut(w) && |longer| == |w| + 1 && longer[..|w|] == w && !CutsShort(longer, |w|)
      ensures Uncut(longer)
    {
      forall k | 0 <= k < |longer| ensures !CutsShort(longer, k) {
        if k < |w| {
          assert longer[..|w|][k] == w[k] && !CutsShort(w, k);
        }
      }
    }

    /** Every request carried `content`, and every outcome called for another attempt. */
    ghost predicate AllRetried(p: Policy, content: Option<string>, log: seq<Option<string>>) {
      forall i :: 0 <= i < |log| ==> log[i] == content && Retryable(p, outcome(i))
    }

    lemma {:induction false} OneMoreRetried(p: Policy, content: Option<string>, log: seq<Option<string>>)
      requires AllRetried(p, content, log) && Retryable(p, outcome(|log|))
      ensures AllRetried(p, content, log + [content])
    {
    }

    /** Every response but the one returned without error is closed. */
    ghost predicate ClosedBut(resp: Option<Response>, err: Option<Error>)
      reads this`answers, answers
    {
      forall r :: r in answers ==> (r.closed <==> !(err == None && resp == Some(r)))
    }

    /** The requests stopped at an outcome that is not retried, or at the last attempt; all carried `content`. */
    ghost predicate StoppedAt(p: Policy, maxAttempts: nat, content: Option<string>, log: seq<Option<string>>) {
      && 1 <= |log| <= maxAttempts && log[|log| - 1] == content && AllRetried(p, content, log[..|log| - 1])
      && (|log| == maxAttempts || !Retryable(p, outcome(|log| - 1)))
    }

    lemma {:induction false} LastOne(p: Policy, maxAttempts: nat, content: Option<string>, log: seq<Option<string>>)
      requires AllRetried(p, content, log) && |log| < maxAttempts
      requires |log| + 1 == maxAttempts || !Retryable(p, outcome(|log|))
      ensures StoppedAt(p, maxAttempts, content, log + [content])
    {
      hide AllRetried;
      assert (log + [content])[..|log|] == log;
    }

    /** The response is the last answer, if the last request was answered. */
    ghost predicate Given(last: Outcome, resp: Option<Response>)
      reads this`answers
    {
      match last
      case Failed(_) => resp == None
      case Answered(status) => answers != [] && resp == Some(answers[|answers| - 1]) && resp.value.status == status
    }

    /**
     A call that ran its course: it stopped where it had to, with the outcome of the last request,
     and no wait was cut short.
     */
    ghost predicate Finished(p: Policy, maxAttempts: nat, content: Option<string>, resp: Option<Response>,
            err: Option<Error>)
      reads this
    {
      && |waits| + 1 == |sent| && StoppedAt(p, maxAttempts, content, sent) && Uncut(waits)
      && Given(outcome(|sent| - 1), resp) && err == ErrorAfter(outcome(|sent| - 1))
    }

    /** A call whose last wait, and no other, was cut short: it has the last response together with an error. */
    ghost predicate CutOff(p: Policy, maxAttempts: nat, content: Option<string>, resp: Option<Response>,
            err: Option<Error>)
      reads this
    {
      && 1 <= |waits| == |sent| < maxAttempts && AllRetried(p, content, sent)
      && Uncut(waits[..|waits| - 1]) && CutsShort(waits, |waits| - 1)
      && Given(outcome(|sent| - 1), resp)
      && err == (if outcome(|sent| - 1).Failed? then ErrorAfter(outcome(|sent| - 1)) else Some(Cancelled))
    }

    /** Sends the request once; a response that calls for another attempt is closed. */
    method TryOnce(req: Request, p: Policy, last: bool)
            returns (resp: Option<Response>, err: Option<Error>, again: bool)
      modifies this`sent, this`answers, if req.body.Some? then {req.body.value} else {}
      ensures sent == old(sent) + [old(Carries(req))]
      ensures again <==> !last && Retryable(p, outcome(|old(sent)|))
      ensures answers == old(answers) + if resp.Some? then [resp.value] else []
      ensures Given(outcome(|old(sent)|), resp) && err == ErrorAfter(outcome(|old(sent)|))
      ensures (resp.Some? <==> err == None) && (resp.Some? ==> fresh(resp.value) && (resp.value.closed <==> again))
    {
      hide StatusCodes, Carries;
      resp, err := Do(req);
      if err.Some? {
        again := !last;
        return;
      }
      again := !last;
      if again {
        again := IsStatusRetryable(p, resp.value.status);
      }
      if again {
        resp.value.closed := true;
      }
    }

    /** The attempts, with a wait before each but the first. */
    method RunAttempts(req: Request, p: Policy, maxAttempts: nat, bytes: Option<string>, ghost content: Option<string>)
        returns (resp: Option<Response>, err: Option<Error>)
      requires sent == [] && answers == [] && waits == [] && maxAttempts >= 1
      requires forall n :: -1.0 <= noise(n) <= 1.0
      requires content == Carries(req) && (maxAttempts > 1 ==> bytes == content)
      modifies this, req, if req.body.Some? then {req.body.value} else {}
      ensures if |waits| < |sent| then Finished(p, maxAttempts, content, resp, err)
          else CutOff(p, maxAttempts, content, resp, err)
      ensures GoodWaits(p, waits) && |waits| < maxAttempts && sent != []
      ensures ClosedBut(resp, err)
    {
      hide StatusCodes, MaxDelay, BaseDelay, JitterFraction, AllRetried, StoppedAt, Carries, Retryable, Given, Uncut,
          CutsShort;
      NothingYet(p, content);
      CarriesNothing(req);
      hide GoodWaits;
      resp, err := None, None;
      var attempt := 1;
      while true
        invariant 1 <= attempt <= maxAttempts && |sent| == attempt - 1 && AllRetried(p, content, sent)
        invariant |waits| == (if attempt == 1 then 0 else attempt - 2) && GoodWaits(p, waits) && Uncut(waits)
        invariant attempt > 1 ==> Given(outcome(attempt - 2), resp) && err == ErrorAfter(outcome(attempt - 2))
        invariant forall r :: r in answers ==> fresh(r) && r.closed
        invariant req.body == old(req.body) || (req.body.Some? && fresh(req.body.value))
        invariant attempt == 1 ==> Carries(req) == content
        invariant content.None? ==> req.body == None
        decreases maxAttempts - attempt
      {
        if attempt > 1 {
          Refill(req, bytes);
          ghost var before := waits;
          var stop := Pause(p, attempt - 1);
          if stop {
            if err == None {
              err := Some(Cancelled);
            }
            return;
          }
          OneMoreUncut(before, waits);
        }
        ghost var log := sent;
        var again;
        resp, err, again := TryOnce(req, p, attempt == maxAttempts);
        if !again {
          LastOne(p, maxAttempts, content, log);
          return;
        }
        OneMoreRetried(p, content, log);
        attempt := attempt + 1;
      }
    }

    /**
     Sends the request up to the policy's number of attempts; a body that cannot be read ends the
     call before the first.
     */
    method DoWithRetry(req: Request, p: Policy, readError: Option<string>)
            returns (resp: Option<Response>, err: Option<Error>)
      requires sent == [] && answers == [] && waits == []
      requires forall n :: -1.0 <= noise(n) <= 1.0
      modifies this, req, if req.body.Some? then {req.body.value} else {}
      ensures old(req.body).Some? && Attempts(p, req.verb) > 1 && readError.Some? <==> sent == []
      ensures sent == [] ==> resp == None && err == Some(ReadFailed(readError.value)) && waits == []
      ensures sent != [] && |waits| < |sent| ==> Finished(p, Attempts(p, req.verb), old(Carries(req)), resp, err)
      ensures sent != [] && |waits| >= |sent| ==> CutOff(p, Attempts(p, req.verb), old(Carries(req)), resp, err)
      ensures GoodWaits(p, waits) && Sum(waits) <= (Attempts(p, req.verb) - 1) as real * MaxDelay(p)
      ensures ClosedBut(resp, err)
    {
      hide MaxAttempts, MethodRetryable, StatusCodes, MaxDelay, BaseDelay, JitterFraction, Carries, Sum, Finished,
          CutOff;
      var maxAttempts := MaxAttempts(p);
      var retryable := IsMethodRetryable(p, req.verb);
      if !retryable {
        maxAttempts := 1;
      }
      assert maxAttempts == Attempts(p, req.verb);
      ghost var content := Carries(req);
      WaitsBounded(p, waits, maxAttempts - 1);
      CarriesNothing(req);
      var bytes;
      bytes, err := Prepare(req, maxAttempts, readError);
      resp := None;
      if err.Some? {
        return;
      }
      hide GoodWaits;
      resp, err := RunAttempts(req, p, maxAttempts, bytes, content);
      WaitsBounded(p, waits, maxAttempts - 1);
    }

    lemma {:induction false} NothingYet(p: Policy, content: Option<string>)
      ensures AllRetried(p, content, []) && GoodWaits(p, []) && Uncut([])
    {
    }

    lemma {:induction false} WaitsBounded(p: Policy, w: seq<real>, n: nat)
      requires GoodWaits(p, w) && |w| <= n
      ensures Sum(w) <= n as real * MaxDelay(p)
    {
      hide MaxDelay, BaseDelay, Sum;
      TotalWaitBounded(w, MaxDelay(p), n);
    }
  }

  lemma {:induction false} CarriesNothing(req: Request)
    ensures Carries(req).None? <==> req.body.None?
  {
  }

  function Sum(w: seq<real>): real {
    if w == [] then 0.0 else Sum(w[..|w| - 1]) + w[|w| - 1]
  }

  /** All waits together are no longer than the number of retries times the longest wait allowed. */
  lemma {:induction false} TotalWaitBounded(w: seq<real>, most: real, n: nat)
    requires forall k :: 0 <= k < |w| ==> 0.0 <= w[k] <= most
    requires |w| <= n && most >= 0.0
    ensures 0.0 <= Sum(w) <= n as real * most
  {
    if w != [] {
      TotalWaitBounded(w[..|w| - 1], most, n - 1);
      assert n as real * most == (n - 1) as real * most + most;
    } else {
      Product(n as real, most);
    }
  }
}
