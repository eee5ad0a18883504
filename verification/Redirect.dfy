/** The redirect loop: a budget, and the policy re-checked at every hop (src/proxy.rs). */
module Redirect {
  import opened Prelude
  import opened Rules

  datatype Url = Url(scheme: string, host: Option<string>, text: string)

  /** URL parsing and joining, as the url library does them. */
  datatype UrlOps = UrlOps(parse: string -> Option<Url>, join: (Url, string) -> Option<Url>) {
    /** A Location: absolute as it stands, otherwise relative to the URL that sent it. */
    function Resolve(base: Url, location: string): Option<Url> {
      if parse(location).Some? then parse(location) else join(base, location)
    }
  }

  datatype Policy = Policy(target: TargetList, origin: TargetList, engine: Engine)

  datatype AppError =
    | BadUrl
    | NoHost
    | TargetDenied
    | OriginDenied
    | OriginRequired
    | SendFailed
    | RedirectLimit
    | MissingLocation

  datatype Response = Response(status: nat, location: Option<string>)

  datatype Outcome =
    | Answered(response: Response, finalUrl: Url)
    | NotModified(response: Response)
    | Failed(error: AppError)

  /** `validate_target_policy`. */
  function Validate(policy: Policy, url: Url, origin: Option<string>): Result<(), AppError> {
    if url.scheme != "http" && url.scheme != "https" then Err(BadUrl)
    else if url.host.None? then Err(NoHost)
    else if !policy.target.IsAllowed(url.host.value, policy.engine) then Err(TargetDenied)
    else if origin.Some? && !policy.origin.IsAllowed(origin.value, policy.engine) then Err(OriginDenied)
    else if origin.None? && policy.origin.HasWhitelist() then Err(OriginRequired)
    else Ok(())
  }

  /** What the operator's lists promise of a URL the proxy contacts. */
  ghost predicate Permitted(policy: Policy, url: Url, origin: Option<string>) {
    && url.scheme in {"http", "https"}
    && url.host.Some?
    && (policy.target.whitelist != [] ==>
          exists e :: e in policy.target.whitelist && EntryMatches(e, url.host.value, policy.engine))
    && (policy.target.whitelist == [] ==>
          forall e :: e in policy.target.blacklist ==> !EntryMatches(e, url.host.value, policy.engine))
    && match origin
       case None => policy.origin.whitelist == []
       case Some(o) =>
         && (policy.origin.whitelist != [] ==>
               exists e :: e in policy.origin.whitelist && EntryMatches(e, o, policy.engine))
         && (policy.origin.whitelist == [] ==>
               forall e :: e in policy.origin.blacklist ==> !EntryMatches(e, o, policy.engine))
  }

  lemma ValidateIsPermitted(policy: Policy, url: Url, origin: Option<string>)
    ensures Validate(policy, url, origin).Ok? <==> Permitted(policy, url, origin)
  {
  }

  predicate IsFollowableRedirect(status: nat) {
    status in {301, 302, 303, 307, 308}
  }

  /** The upstream as an arbitrary function of the number of earlier requests and the URL. */
  type Upstream = (nat, Url) -> Result<Response, ()>

  /** A followed redirect: request `i` was answered by a redirect that leads to request `i + 1`. */
  ghost predicate Followed(requests: seq<Url>, i: nat, upstream: Upstream, urls: UrlOps)
    requires i + 1 < |requests|
  {
    var answer := upstream(i, requests[i]);
    && answer.Ok? && IsFollowableRedirect(answer.value.status) && answer.value.location.Some?
    && urls.Resolve(requests[i], answer.value.location.value) == Some(requests[i + 1])
  }

  /** Where the run stops: the answer to the last request explains the outcome. */
  ghost predicate Explains(requests: seq<Url>, outcome: Outcome, maxRedirects: nat, conditional: bool,
                           policy: Policy, origin: Option<string>, upstream: Upstream, urls: UrlOps)
    requires requests != []
  {
    var last := requests[|requests| - 1];
    var answer := upstream(|requests| - 1, last);
    match outcome
    case Answered(response, finalUrl) =>
      answer == Ok(response) && finalUrl == last && !IsFollowableRedirect(response.status)
      && !(conditional && response.status == 304)
    case NotModified(response) => answer == Ok(response) && conditional && response.status == 304
    case Failed(SendFailed) => answer.Err?
    case Failed(error) =>
      && answer.Ok? && IsFollowableRedirect(answer.value.status)
      && if error == RedirectLimit then |requests| == maxRedirects + 1
         else
           && |requests| <= maxRedirects
           && match answer.value.location
              case None => error == MissingLocation
              case Some(location) =>
                match urls.Resolve(last, location)
                case None => error == BadUrl
                case Some(next) => Validate(policy, next, origin) == Err(error)
  }

  /** A whole run: it starts at the target, stays in the budget, every URL was permitted before it was
      fetched, every hop was followed, and the last answer explains the outcome. */
  ghost predicate Run(requests: seq<Url>, outcome: Outcome, target: Url, maxRedirects: nat, conditional: bool,
                      policy: Policy, origin: Option<string>, upstream: Upstream, urls: UrlOps)
  {
    && requests != [] && requests[0] == target
    && |requests| <= maxRedirects + 1
    && (forall i :: 0 <= i < |requests| ==> Permitted(policy, requests[i], origin))
    && (forall i :: 0 <= i < |requests| - 1 ==> Followed(requests, i, upstream, urls))
    && Explains(requests, outcome, maxRedirects, conditional, policy, origin, upstream, urls)
  }

  /** Policy, fetch and redirects for one request; `conditional` when a cached entry is being revalidated. */
  method Fetch(target: Url, origin: Option<string>, maxRedirects: nat, conditional: bool,
               policy: Policy, upstream: Upstream, urls: UrlOps)
    returns (outcome: Outcome, requests: seq<Url>)
    ensures if Permitted(policy, target, origin)
            then Run(requests, outcome, target, maxRedirects, conditional, policy, origin, upstream, urls)
            else requests == [] && outcome == Failed(Validate(policy, target, origin).error)
  {
    hide Permitted, IsFollowableRedirect;
    ValidateIsPermitted(policy, target, origin);
    var verdict := Validate(policy, target, origin);
    if verdict.Err? {
      return Failed(verdict.error), [];
    }
    var redirectsLeft := maxRedirects;
    var current := target;
    requests := [target];
    while true
      invariant 0 <= redirectsLeft && redirectsLeft + |requests| == maxRedirects + 1
      invariant requests != [] && requests[0] == target && requests[|requests| - 1] == current
      invariant forall i :: 0 <= i < |requests| ==> Permitted(policy, requests[i], origin)
      invariant forall i :: 0 <= i < |requests| - 1 ==> Followed(requests, i, upstream, urls)
      decreases redirectsLeft
    {
      var answer := upstream(|requests| - 1, current);
      if answer.Err? {
        return Failed(SendFailed), requests;
      }
      var response := answer.value;
      if response.status == 304 && conditional {
        return NotModified(response), requests;
      }
      if !IsFollowableRedirect(response.status) {
        return Answered(response, current), requests;
      }
      if maxRedirects == 0 || redirectsLeft == 0 {
        return Failed(RedirectLimit), requests;
      }
      redirectsLeft := redirectsLeft - 1;
      if response.location.None? {
        return Failed(MissingLocation), requests;
      }
      var next := urls.Resolve(current, response.location.value);
      if next.None? {
        return Failed(BadUrl), requests;
      }
      ValidateIsPermitted(policy, next.value, origin);
      verdict := Validate(policy, next.value, origin);
      if verdict.Err? {
        return Failed(verdict.error), requests;
      }
      ghost var before := requests;
      requests := requests + [next.value];
      assert forall i :: 0 <= i < |before| - 1 ==> Followed(before, i, upstream, urls) ==> Followed(requests, i, upstream, urls);
      current := next.value;
    }
  }

  lemma {:induction false} CommonPrefix(a: seq<Url>, b: seq<Url>, i: nat, upstream: Upstream, urls: UrlOps)
    requires i < |a| && i < |b| && a[0] == b[0]
    requires forall j :: 0 <= j < |a| - 1 ==> Followed(a, j, upstream, urls)
    requires forall j :: 0 <= j < |b| - 1 ==> Followed(b, j, upstream, urls)
    ensures a[..i + 1] == b[..i + 1]
  {
    if i > 0 {
      CommonPrefix(a, b, i - 1, upstream, urls);
      assert Followed(a, i - 1, upstream, urls) && Followed(b, i - 1, upstream, urls);
      assert a[i - 1] == a[..i][i - 1] == b[..i][i - 1] == b[i - 1];
      assert a[..i + 1] == a[..i] + [a[i]] && b[..i + 1] == b[..i] + [b[i]];
    }
  }

  /** A followed redirect to a permitted URL, within the budget, is no reason to stop. */
  lemma FollowedIsNoEnd(a: seq<Url>, outcome: Outcome, next: Url, maxRedirects: nat, conditional: bool,
                        policy: Policy, origin: Option<string>, upstream: Upstream, urls: UrlOps)
    requires a != [] && |a| <= maxRedirects && Permitted(policy, next, origin)
    requires Followed(a + [next], |a| - 1, upstream, urls)
    ensures !Explains(a, outcome, maxRedirects, conditional, policy, origin, upstream, urls)
  {
    ValidateIsPermitted(policy, next, origin);
  }

  lemma NoShorterRun(a: seq<Url>, oa: Outcome, b: seq<Url>, ob: Outcome, target: Url, maxRedirects: nat, conditional: bool,
                     policy: Policy, origin: Option<string>, upstream: Upstream, urls: UrlOps)
    requires Run(a, oa, target, maxRedirects, conditional, policy, origin, upstream, urls)
    requires Run(b, ob, target, maxRedirects, conditional, policy, origin, upstream, urls)
    ensures |b| <= |a|
  {
    hide Permitted, Explains, Followed;
    var n := |a| - 1;
    CommonPrefix(a, b, if |a| <= |b| then n else |b| - 1, upstream, urls);
    if |a| < |b| {
      FollowedElsewhere(a, b, n, upstream, urls);
      FollowedIsNoEnd(a, oa, b[n + 1], maxRedirects, conditional, policy, origin, upstream, urls);
    }
  }

  lemma FollowedElsewhere(a: seq<Url>, b: seq<Url>, n: nat, upstream: Upstream, urls: UrlOps)
    requires |a| == n + 1 < |b| && a == b[..n + 1] && Followed(b, n, upstream, urls)
    ensures Followed(a + [b[n + 1]], n, upstream, urls)
  {
    assert a[n] == b[..n + 1][n] == b[n];
  }

  /** What `Fetch` promises leaves no choice: for every upstream, requests and outcome are determined. */
  lemma FetchIsDetermined(a: seq<Url>, oa: Outcome, b: seq<Url>, ob: Outcome, target: Url, maxRedirects: nat, conditional: bool,
                          policy: Policy, origin: Option<string>, upstream: Upstream, urls: UrlOps)
    requires Run(a, oa, target, maxRedirects, conditional, policy, origin, upstream, urls)
    requires Run(b, ob, target, maxRedirects, conditional, policy, origin, upstream, urls)
    ensures a == b && oa == ob
  {
    NoShorterRun(a, oa, b, ob, target, maxRedirects, conditional, policy, origin, upstream, urls);
    NoShorterRun(b, ob, a, oa, target, maxRedirects, conditional, policy, origin, upstream, urls);
    CommonPrefix(a, b, |a| - 1, upstream, urls);
    assert a == a[..|a|] && b == b[..|a|];
  }

  // ---------- What a run means, hop by hop ----------

  ghost predicate RedirectStatus(status: nat) {
    status == 301 || status == 302 || status == 303 || status == 307 || status == 308
  }

  /** Where a Location leads from a URL: an absolute one stands for itself, any other is joined to that URL. */
  ghost predicate LeadsTo(urls: UrlOps, base: Url, location: string, next: Option<Url>) {
    if urls.parse(location).Some? then next == urls.parse(location) else next == urls.join(base, location)
  }

  /** The answer of a URL is a redirect to another. */
  ghost predicate Leads(urls: UrlOps, answer: Result<Response, ()>, from: Url, to: Url) {
    answer.Ok? && RedirectStatus(answer.value.status) && answer.value.location.Some?
    && LeadsTo(urls, from, answer.value.location.value, Some(to))
  }

  /** In every run, each request but the first is where the Location of the answer before leads, from the URL that was
      answered; an answer that is passed on is no redirect, and is the last one; and a run that fails at a redirect
      fails because the budget is spent, the Location is missing or leads nowhere, or what it leads to is refused. */
  lemma RunFollowsLocations(requests: seq<Url>, outcome: Outcome, target: Url, maxRedirects: nat, conditional: bool,
                            policy: Policy, origin: Option<string>, upstream: Upstream, urls: UrlOps)
    requires Run(requests, outcome, target, maxRedirects, conditional, policy, origin, upstream, urls)
    ensures forall i :: 0 <= i < |requests| - 1 ==> Leads(urls, upstream(i, requests[i]), requests[i], requests[i + 1])
    ensures var (last, answer) := (requests[|requests| - 1], upstream(|requests| - 1, requests[|requests| - 1]));
            && (outcome.Answered? ==> outcome.finalUrl == last && answer == Ok(outcome.response)
                                      && !RedirectStatus(outcome.response.status))
            && (outcome.NotModified? ==> conditional && answer == Ok(outcome.response) && outcome.response.status == 304)
            && (outcome.Failed? && answer.Ok? ==> RedirectStatus(answer.value.status))
            && (outcome == Failed(MissingLocation) ==> answer.Ok? && answer.value.location.None?)
            && (outcome == Failed(RedirectLimit) <==>
                  answer.Ok? && RedirectStatus(answer.value.status) && |requests| == maxRedirects + 1)
            && (outcome.Failed? && answer.Ok? && |requests| <= maxRedirects && answer.value.location.Some? ==>
                  (LeadsTo(urls, last, answer.value.location.value, None) && outcome == Failed(BadUrl))
                  || exists next :: LeadsTo(urls, last, answer.value.location.value, Some(next))
                                    && Validate(policy, next, origin) == Err(outcome.error))
  {
    hide Permitted;
    var last := requests[|requests| - 1];
    var answer := upstream(|requests| - 1, last);
    forall i | 0 <= i < |requests| - 1 ensures Leads(urls, upstream(i, requests[i]), requests[i], requests[i + 1]) {
      assert Followed(requests, i, upstream, urls);
    }
    if outcome.Failed? && answer.Ok? && |requests| <= maxRedirects && answer.value.location.Some? {
      var next := urls.Resolve(last, answer.value.location.value);
      assert LeadsTo(urls, last, answer.value.location.value, next);
      if next.Some? {
        assert LeadsTo(urls, last, answer.value.location.value, Some(next.value));
      }
    }
  }

  /** Why a URL is refused: scheme, host, target list, origin list, in this order. */
  lemma RefusalMeans(policy: Policy, url: Url, origin: Option<string>)
    ensures var (http, r) := (url.scheme == "http" || url.scheme == "https", Validate(policy, url, origin));
            && (r == Err(BadUrl) <==> !http)
            && (r == Err(NoHost) <==> http && url.host.None?)
            && (r == Err(TargetDenied) <==>
                  http && url.host.Some?
                  && if policy.target.whitelist == []
                     then exists e :: e in policy.target.blacklist && EntryMatches(e, url.host.value, policy.engine)
                     else forall e :: e in policy.target.whitelist ==> !EntryMatches(e, url.host.value, policy.engine))
            && (r == Err(OriginRequired) ==> origin.None? && policy.origin.whitelist != [])
            && (r == Err(OriginDenied) ==> origin.Some?)
            && (r.Ok? || r.error in {BadUrl, NoHost, TargetDenied, OriginRequired, OriginDenied})
  {
  }
}
