/**
  What `DomainSpider.parse` does with the links of one page, as functions
  over values: each href is either an external domain to check (once per
  spider) or an internal URL to crawl (once per spider), and `check_domain`
  turns the DNS and HTTP outcomes for a domain into an "expired" verdict.
  The spider's class (module DomainSpider) is proved to behave as `Triage`.
*/
module LinkTriage {
  import opened Opt

  /** What `dns.resolver.resolve(domain)` gives: NXDOMAIN, NoAnswer, any other exception, or an answer set of `count` records. */
  datatype Resolution = NxDomain | NoAnswer | ResolveError | Answers(count: nat)

  /** What `requests.head("http://" + domain, timeout=5)` gives: a status code, or any exception (timeout, refused connection, ...). */
  datatype HeadResult = Status(code: int) | HeadError

  /**
    `check_domain`: a domain is expired when the name does not resolve
    (NXDOMAIN, NoAnswer, an empty answer set) or when it resolves and its
    HEAD request answers with a status of 400 or more. Any other failure,
    of the resolver or of the HEAD request, counts as not expired.
  */
  function CheckDomain(dns: Resolution, head: HeadResult): (expired: bool)
    ensures expired <==>
              || dns.NxDomain? || dns.NoAnswer? || dns == Answers(0)
              || (dns.Answers? && dns.count > 0 && head.Status? && head.code >= 400)
  {
    match dns
    case NxDomain => true
    case NoAnswer => true
    case ResolveError => false
    case Answers(n) =>
      if n == 0 then true
      else
        match head
        case Status(code) => code >= 400
        case HeadError => false
  }

  /** The HEAD request is made only once the name has resolved to some records: otherwise its outcome cannot matter. */
  lemma HeadOnlyAfterAnswers(dns: Resolution, h1: HeadResult, h2: HeadResult)
    requires !(dns.Answers? && dns.count > 0)
    ensures CheckDomain(dns, h1) == CheckDomain(dns, h2)
  {
  }

  /**
    Where processing one href raises, if it does: resolving it (`urljoin`,
    `urlparse`), checking or recording its domain (`asyncio.run` of the
    check, or the `checked_domains` insert), or building its request.
    A fault only fires when processing reaches that point.
  */
  datatype Fault = NoFault | ResolveFault | DomainFault | RequestFault

  /**
    One `href` of the page: its text, the absolute URL and netloc that
    resolution gives, the outcomes the network would give if its domain
    were checked, and where its processing raises, if anywhere. `url` and
    `netloc` mean nothing under `ResolveFault`.
  */
  datatype Href = Href(raw: string, url: string, netloc: string, dns: Resolution, head: HeadResult, fault: Fault)

  /** A row inserted into the `crawled_pages` or `checked_domains` table (timestamps left out). */
  datatype Row =
    | CrawledPage(projectId: Option<string>, url: string, status: int)
    | CheckedDomain(projectId: Option<string>, domain: string, expired: bool)

  /**
    The spider as `parse` sees and leaves it: the `visited_urls` and
    `checked_domains` sets, the rows inserted so far in order, the URLs
    yielded so far, and the hrefs logged as errors.
  */
  datatype Crawl = Crawl(visited: set<string>, checked: set<string>, inserts: seq<Row>, requests: seq<string>, errors: seq<string>)

  /** A host that is neither missing nor the current page's own. */
  predicate External(netloc: string, current: string) {
    netloc != "" && netloc != current
  }

  function Logged(c: Crawl, h: Href): Crawl {
    c.(errors := c.errors + [h.raw])
  }

  /**
    Whether processing `h` from `c` raises: a resolve fault always does; a
    domain fault only when the href is an external link whose domain is not
    checked yet; a request fault only when it is an internal link whose URL
    is not visited yet.
  */
  predicate Fires(c: Crawl, current: string, h: Href) {
    || h.fault == ResolveFault
    || (h.fault == DomainFault && External(h.netloc, current) && h.netloc !in c.checked)
    || (h.fault == RequestFault && h.netloc == current && h.url !in c.visited)
  }

  /**
    One pass of the loop body of `parse` for `h`, on a page whose netloc is
    `current`. The domain is added to the checked set before it is checked,
    so a fault in the check or the insert leaves it marked; the URL is added
    to the visited set before its request is built. `parse` tests the
    internal case after the external one; an external netloc never equals
    `current`, so at most one of the two runs.
  */
  function Step(c: Crawl, projectId: Option<string>, current: string, h: Href): (r: Crawl)
    ensures r.errors == c.errors + (if Fires(c, current, h) then [h.raw] else [])
  {
    if h.fault == ResolveFault then Logged(c, h)
    else if External(h.netloc, current) && h.netloc !in c.checked then
      var marked := c.(checked := c.checked + {h.netloc});
      if h.fault == DomainFault then Logged(marked, h)
      else marked.(inserts := marked.inserts + [CheckedDomain(projectId, h.netloc, CheckDomain(h.dns, h.head))])
    else if h.netloc == current && h.url !in c.visited then
      var marked := c.(visited := c.visited + {h.url});
      if h.fault == RequestFault then Logged(marked, h)
      else marked.(requests := marked.requests + [h.url])
    else c
  }

  /**
    What one href does to each part of the state: the checked set gains
    the host of an external link and the visited set the URL of an internal
    one, even when the href then raises; a row is added for an external
    domain seen first that does not raise, and a request for an internal
    URL seen first that does not raise.
  */
  lemma StepEffect(c: Crawl, projectId: Option<string>, current: string, h: Href)
    ensures var r := Step(c, projectId, current, h);
      && r.checked == c.checked + (if ExternalLink(h, current) then {h.netloc} else {})
      && r.visited == c.visited + (if Internal(h, current) then {h.url} else {})
      && r.inserts == c.inserts +
           (if ExternalLink(h, current) && h.netloc !in c.checked && h.fault != DomainFault
            then [CheckedDomain(projectId, h.netloc, CheckDomain(h.dns, h.head))] else [])
      && r.requests == c.requests +
           (if Internal(h, current) && h.url !in c.visited && h.fault != RequestFault then [h.url] else [])
  {
  }

  /**
    The loop of `parse` over the hrefs `hs`, each fault logged and the loop
    carried on: each href logs at most one error and adds at most one row
    or one request.
  */
  function Triage(c: Crawl, projectId: Option<string>, current: string, hs: seq<Href>): (r: Crawl)
    ensures |r.errors| <= |c.errors| + |hs|
    ensures |r.inserts| + |r.requests| <= |c.inserts| + |c.requests| + |hs|
    decreases |hs|
  {
    if hs == [] then c
    else Step(Triage(c, projectId, current, hs[..|hs| - 1]), projectId, current, hs[|hs| - 1])
  }

  /**
    What the spider keeps true over its lifetime: no URL is yielded twice
    and every yielded URL is marked visited; no domain gets two
    `checked_domains` rows and every recorded domain is marked checked.
  */
  ghost predicate Consistent(c: Crawl) {
    && (forall i, j :: 0 <= i < j < |c.requests| ==> c.requests[i] != c.requests[j])
    && (forall i :: 0 <= i < |c.requests| ==> c.requests[i] in c.visited)
    && (forall i, j :: 0 <= i < j < |c.inserts| && c.inserts[i].CheckedDomain? && c.inserts[j].CheckedDomain?
                       ==> c.inserts[i].domain != c.inserts[j].domain)
    && (forall i :: 0 <= i < |c.inserts| && c.inserts[i].CheckedDomain? ==> c.inserts[i].domain in c.checked)
  }

  lemma StepKeepsConsistent(c: Crawl, projectId: Option<string>, current: string, h: Href)
    requires Consistent(c)
    ensures Consistent(Step(c, projectId, current, h))
  {
  }

  /** However the hrefs of a page fail, the spider stays consistent. */
  lemma {:induction false} TriageKeepsConsistent(c: Crawl, projectId: Option<string>, current: string, hs: seq<Href>)
    requires Consistent(c)
    ensures Consistent(Triage(c, projectId, current, hs))
    decreases |hs|
  {
    if hs != [] {
      TriageKeepsConsistent(c, projectId, current, hs[..|hs| - 1]);
      StepKeepsConsistent(Triage(c, projectId, current, hs[..|hs| - 1]), projectId, current, hs[|hs| - 1]);
    }
  }

  /** Neither set ever shrinks, and what was inserted, yielded or logged before stays as it was. */
  lemma {:induction false} TriageGrows(c: Crawl, projectId: Option<string>, current: string, hs: seq<Href>)
    ensures var t := Triage(c, projectId, current, hs);
      && c.visited <= t.visited && c.checked <= t.checked
      && |c.inserts| <= |t.inserts| && t.inserts[..|c.inserts|] == c.inserts
      && |c.requests| <= |t.requests| && t.requests[..|c.requests|] == c.requests
      && |c.errors| <= |t.errors| && t.errors[..|c.errors|] == c.errors
    decreases |hs|
  {
    if hs != [] {
      var t0 := Triage(c, projectId, current, hs[..|hs| - 1]);
      TriageGrows(c, projectId, current, hs[..|hs| - 1]);
      var t := Step(t0, projectId, current, hs[|hs| - 1]);
      assert t.inserts[..|t0.inserts|] == t0.inserts;
      assert t.requests[..|t0.requests|] == t0.requests;
      assert t.errors[..|t0.errors|] == t0.errors;
      assert t.inserts[..|c.inserts|] == t0.inserts[..|c.inserts|];
      assert t.requests[..|c.requests|] == t0.requests[..|c.requests|];
      assert t.errors[..|c.errors|] == t0.errors[..|c.errors|];
    }
  }

  /** An href whose processing gets past resolution and whose host is the current page's. */
  predicate Internal(h: Href, current: string) {
    h.fault != ResolveFault && h.netloc == current
  }

  /**
    Every URL a page yields is the URL of one of its internal links and was
    not visited before: links to other hosts are never followed, and a
    visited URL is never yielded again.
  */
  lemma {:induction false} TriageYieldsOnlyNewInternal(c: Crawl, projectId: Option<string>, current: string, hs: seq<Href>)
    ensures var t := Triage(c, projectId, current, hs);
      forall k :: |c.requests| <= k < |t.requests| ==>
        && t.requests[k] !in c.visited
        && exists i :: 0 <= i < |hs| && Internal(hs[i], current) && hs[i].url == t.requests[k]
    decreases |hs|
  {
    if hs != [] {
      var init := hs[..|hs| - 1];
      var t0 := Triage(c, projectId, current, init);
      TriageYieldsOnlyNewInternal(c, projectId, current, init);
      TriageGrows(c, projectId, current, init);
      var h := hs[|hs| - 1];
      var t := Step(t0, projectId, current, h);
      forall k | |c.requests| <= k < |t.requests|
        ensures t.requests[k] !in c.visited
        ensures exists i :: 0 <= i < |hs| && Internal(hs[i], current) && hs[i].url == t.requests[k]
      {
        if k < |t0.requests| {
          assert t.requests[k] == t0.requests[k];
          var i :| 0 <= i < |init| && Internal(init[i], current) && init[i].url == t0.requests[k];
          assert hs[i] == init[i];
        } else {
          assert t.requests[k] == h.url && Internal(h, current) && h.url !in t0.visited;
          assert hs[|hs| - 1] == h;
        }
      }
    }
  }

  /** An href whose processing gets past resolution and whose host is external to the current page. */
  predicate ExternalLink(h: Href, current: string) {
    h.fault != ResolveFault && External(h.netloc, current)
  }

  /**
    Every row a page's links insert is a `checked_domains` row for the
    project, for an external domain of one of its links that was not checked
    before, carrying `check_domain`'s verdict on that link's outcomes.
  */
  lemma {:induction false} TriageRecordsOnlyNewExternal(c: Crawl, projectId: Option<string>, current: string, hs: seq<Href>)
    ensures var t := Triage(c, projectId, current, hs);
      forall k :: |c.inserts| <= k < |t.inserts| ==>
        && t.inserts[k].CheckedDomain?
        && t.inserts[k].projectId == projectId
        && t.inserts[k].domain !in c.checked
        && exists i :: 0 <= i < |hs| && ExternalLink(hs[i], current) && hs[i].netloc == t.inserts[k].domain
                       && t.inserts[k].expired == CheckDomain(hs[i].dns, hs[i].head)
    decreases |hs|
  {
    if hs != [] {
      var init := hs[..|hs| - 1];
      var t0 := Triage(c, projectId, current, init);
      TriageRecordsOnlyNewExternal(c, projectId, current, init);
      TriageGrows(c, projectId, current, init);
      var h := hs[|hs| - 1];
      var t := Step(t0, projectId, current, h);
      forall k | |c.inserts| <= k < |t.inserts|
        ensures t.inserts[k].CheckedDomain? && t.inserts[k].projectId == projectId
        ensures t.inserts[k].domain !in c.checked
        ensures exists i :: 0 <= i < |hs| && ExternalLink(hs[i], current) && hs[i].netloc == t.inserts[k].domain
                            && t.inserts[k].expired == CheckDomain(hs[i].dns, hs[i].head)
      {
        if k < |t0.inserts| {
          assert t.inserts[k] == t0.inserts[k];
          var i :| 0 <= i < |init| && ExternalLink(init[i], current) && init[i].netloc == t0.inserts[k].domain
                   && t0.inserts[k].expired == CheckDomain(init[i].dns, init[i].head);
          assert hs[i] == init[i];
        } else {
          assert t.inserts[k] == CheckedDomain(projectId, h.netloc, CheckDomain(h.dns, h.head));
          assert ExternalLink(h, current) && h.netloc !in t0.checked;
          assert hs[|hs| - 1] == h;
        }
      }
    }
  }

  /**
    Once a page is processed, the host of each of its external links is in
    the checked set and the URL of each of its internal links is in the
    visited set, whether or not its check, insert or request then failed.
    With `Consistent`, this is why each external domain is checked at most
    once and each URL yielded at most once over the spider's lifetime.
  */
  lemma {:induction false} TriageMarksEveryLink(c: Crawl, projectId: Option<string>, current: string, hs: seq<Href>)
    ensures var t := Triage(c, projectId, current, hs);
      && (forall i :: 0 <= i < |hs| && ExternalLink(hs[i], current) ==> hs[i].netloc in t.checked)
      && (forall i :: 0 <= i < |hs| && Internal(hs[i], current) ==> hs[i].url in t.visited)
    decreases |hs|
  {
    if hs != [] {
      var init := hs[..|hs| - 1];
      TriageMarksEveryLink(c, projectId, current, init);
      var t0 := Triage(c, projectId, current, init);
      var t := Step(t0, projectId, current, hs[|hs| - 1]);
      assert t0.checked <= t.checked && t0.visited <= t.visited;
      forall i | 0 <= i < |hs| - 1
        ensures hs[i] == init[i]
      {
      }
    }
  }

  /**
    The external-check branch and the internal-crawl branch exclude each
    other: one href adds at most one row or one request, never both. A link
    with no host on a page that has one touches neither set.
  */
  lemma StepBranchesExclusive(c: Crawl, projectId: Option<string>, current: string, h: Href)
    ensures var t := Step(c, projectId, current, h);
      && (|t.inserts| == |c.inserts| || |t.requests| == |c.requests|)
      && |t.inserts| <= |c.inserts| + 1 && |t.requests| <= |c.requests| + 1
    ensures h.netloc == "" && current != "" ==>
      Step(c, projectId, current, h) == if h.fault == ResolveFault then Logged(c, h) else c
  {
  }

  /**
    The loop composes: processing `a + b` is processing `b` from the state
    that processing `a` left.
  */
  lemma {:induction false} TriageContinues(c: Crawl, projectId: Option<string>, current: string, a: seq<Href>, b: seq<Href>)
    ensures Triage(c, projectId, current, a + b) == Triage(Triage(c, projectId, current, a), projectId, current, b)
    decreases |b|
  {
    if b == [] {
      assert a + b == a;
    } else {
      assert (a + b)[..|a + b| - 1] == a + b[..|b| - 1];
      assert (a + b)[|a + b| - 1] == b[|b| - 1];
      TriageContinues(c, projectId, current, a, b[..|b| - 1]);
    }
  }

  /**
    Only the two sets steer the loop: from two states with the same
    visited and checked sets, the same hrefs leave the same sets and append
    the same rows, requests and errors, whatever was logged before.
  */
  lemma {:induction false} TriageIgnoresLogs(x: Crawl, y: Crawl, projectId: Option<string>, current: string, hs: seq<Href>)
    requires x.visited == y.visited && x.checked == y.checked
    ensures var tx, ty := Triage(x, projectId, current, hs), Triage(y, projectId, current, hs);
      && tx.visited == ty.visited && tx.checked == ty.checked
      && |x.inserts| <= |tx.inserts| && |y.inserts| <= |ty.inserts|
      && tx.inserts[|x.inserts|..] == ty.inserts[|y.inserts|..]
      && |x.requests| <= |tx.requests| && |y.requests| <= |ty.requests|
      && tx.requests[|x.requests|..] == ty.requests[|y.requests|..]
      && |x.errors| <= |tx.errors| && |y.errors| <= |ty.errors|
      && tx.errors[|x.errors|..] == ty.errors[|y.errors|..]
    decreases |hs|
  {
    if hs != [] {
      var init, h := hs[..|hs| - 1], hs[|hs| - 1];
      TriageIgnoresLogs(x, y, projectId, current, init);
      var x0, y0 := Triage(x, projectId, current, init), Triage(y, projectId, current, init);
      StepEffect(x0, projectId, current, h);
      StepEffect(y0, projectId, current, h);
      AppendAfter(x0.inserts, |x.inserts|, Step(x0, projectId, current, h).inserts[|x0.inserts|..]);
      AppendAfter(y0.inserts, |y.inserts|, Step(y0, projectId, current, h).inserts[|y0.inserts|..]);
      AppendAfter(x0.requests, |x.requests|, Step(x0, projectId, current, h).requests[|x0.requests|..]);
      AppendAfter(y0.requests, |y.requests|, Step(y0, projectId, current, h).requests[|y0.requests|..]);
      AppendAfter(x0.errors, |x.errors|, Step(x0, projectId, current, h).errors[|x0.errors|..]);
      AppendAfter(y0.errors, |y.errors|, Step(y0, projectId, current, h).errors[|y0.errors|..]);
    }
  }

  lemma AppendAfter<T>(s: seq<T>, n: nat, d: seq<T>)
    requires n <= |s|
    ensures (s + d)[n..] == s[n..] + d
  {
  }

  lemma LastStep(c: Crawl, projectId: Option<string>, current: string, a: seq<Href>, h: Href)
    ensures Triage(c, projectId, current, a + [h]) == Step(Triage(c, projectId, current, a), projectId, current, h)
  {
    assert (a + [h])[..|a|] == a;
  }

  /** From a state and the same state with one more logged error, the loop ends the same but for that error. */
  lemma TriageAfterLogged(s: Crawl, projectId: Option<string>, current: string, h: Href, b: seq<Href>)
    ensures var with, without := Triage(Logged(s, h), projectId, current, b), Triage(s, projectId, current, b);
      && with.(errors := []) == without.(errors := [])
      && |s.errors| <= |without.errors|
      && with.errors == without.errors[..|s.errors|] + [h.raw] + without.errors[|s.errors|..]
  {
    var x := Logged(s, h);
    var with, without := Triage(x, projectId, current, b), Triage(s, projectId, current, b);
    TriageIgnoresLogs(x, s, projectId, current, b);
    TriageGrows(x, projectId, current, b);
    TriageGrows(s, projectId, current, b);
    assert with.inserts == with.inserts[..|x.inserts|] + with.inserts[|x.inserts|..];
    assert without.inserts == without.inserts[..|s.inserts|] + without.inserts[|s.inserts|..];
    assert with.requests == with.requests[..|x.requests|] + with.requests[|x.requests|..];
    assert without.requests == without.requests[..|s.requests|] + without.requests[|s.requests|..];
    assert with.errors == with.errors[..|x.errors|] + with.errors[|x.errors|..];
    assert without.errors == without.errors[..|s.errors|] + without.errors[|s.errors|..];
  }

  /**
    A fault in resolving an href ends that href only: the page leaves the
    spider as if the href were absent, except for its one entry in the
    error log, in its place.
  */
  lemma TriageSkipsResolveFault(c: Crawl, projectId: Option<string>, current: string, a: seq<Href>, h: Href, b: seq<Href>)
    requires h.fault == ResolveFault
    ensures var with, without := Triage(c, projectId, current, a + [h] + b), Triage(c, projectId, current, a + b);
      var n := |Triage(c, projectId, current, a).errors|;
      && with.(errors := []) == without.(errors := [])
      && n <= |without.errors|
      && with.errors == without.errors[..n] + [h.raw] + without.errors[n..]
  {
    var s := Triage(c, projectId, current, a);
    LastStep(c, projectId, current, a, h);
    TriageContinues(c, projectId, current, a + [h], b);
    TriageContinues(c, projectId, current, a, b);
    TriageAfterLogged(s, projectId, current, h, b);
  }

  /**
    A fault in checking a domain, inserting its row or building a request
    ends that href only: the sets are left as if it had not raised, and the
    hrefs after it append exactly what they would have appended otherwise.
  */
  lemma TriageFaultEndsOwnHref(c: Crawl, projectId: Option<string>, current: string, a: seq<Href>, h: Href, b: seq<Href>)
    requires h.fault != ResolveFault
    ensures var s1, s2 := Triage(c, projectId, current, a + [h]), Triage(c, projectId, current, a + [h.(fault := NoFault)]);
      var t1, t2 := Triage(c, projectId, current, a + [h] + b), Triage(c, projectId, current, a + [h.(fault := NoFault)] + b);
      && s1.visited == s2.visited && s1.checked == s2.checked
      && t1.visited == t2.visited && t1.checked == t2.checked
      && |s1.inserts| <= |t1.inserts| && |s2.inserts| <= |t2.inserts|
      && t1.inserts[|s1.inserts|..] == t2.inserts[|s2.inserts|..]
      && |s1.requests| <= |t1.requests| && |s2.requests| <= |t2.requests|
      && t1.requests[|s1.requests|..] == t2.requests[|s2.requests|..]
      && |s1.errors| <= |t1.errors| && |s2.errors| <= |t2.errors|
      && t1.errors[|s1.errors|..] == t2.errors[|s2.errors|..]
  {
    var h' := h.(fault := NoFault);
    var s0 := Triage(c, projectId, current, a);
    LastStep(c, projectId, current, a, h);
    LastStep(c, projectId, current, a, h');
    StepEffect(s0, projectId, current, h);
    StepEffect(s0, projectId, current, h');
    var s1, s2 := Triage(c, projectId, current, a + [h]), Triage(c, projectId, current, a + [h']);
    TriageContinues(c, projectId, current, a + [h], b);
    TriageContinues(c, projectId, current, a + [h'], b);
    TriageIgnoresLogs(s1, s2, projectId, current, b);
  }

  /** The href that logged the error at position `k`, found by induction over the hrefs. */
  lemma {:induction false} ErrorCause(c: Crawl, projectId: Option<string>, current: string, hs: seq<Href>, k: nat)
    returns (i: nat)
    requires |c.errors| <= k < |Triage(c, projectId, current, hs).errors|
    ensures i < |hs| && Fires(Triage(c, projectId, current, hs[..i]), current, hs[i])
    ensures hs[i].raw == Triage(c, projectId, current, hs).errors[k]
    decreases |hs|
  {
    var init, h := hs[..|hs| - 1], hs[|hs| - 1];
    var t0 := Triage(c, projectId, current, init);
    var t := Step(t0, projectId, current, h);
    assert Triage(c, projectId, current, hs) == t;
    TriageGrows(c, projectId, current, init);
    if k < |t0.errors| {
      assert t.errors[k] == t0.errors[k];
      i := ErrorCause(c, projectId, current, init, k);
      assert hs[i] == init[i] && hs[..i] == init[..i];
    } else {
      i := |hs| - 1;
      assert hs[..i] == init;
    }
  }

  /** `e` is the text of an href of `hs` whose processing raised where the loop reached it. */
  ghost predicate RaisedBy(c: Crawl, projectId: Option<string>, current: string, hs: seq<Href>, e: string) {
    exists i :: 0 <= i < |hs| && Fires(Triage(c, projectId, current, hs[..i]), current, hs[i]) && hs[i].raw == e
  }

  /** Every error logged while processing a page names one of its hrefs, one whose processing raised where it was reached. */
  lemma TriageLogsOnlyFaults(c: Crawl, projectId: Option<string>, current: string, hs: seq<Href>)
    ensures var t := Triage(c, projectId, current, hs);
      forall k :: |c.errors| <= k < |t.errors| ==> RaisedBy(c, projectId, current, hs, t.errors[k])
  {
    var t := Triage(c, projectId, current, hs);
    forall k | |c.errors| <= k < |t.errors|
      ensures RaisedBy(c, projectId, current, hs, t.errors[k])
    {
      var i := ErrorCause(c, projectId, current, hs, k);
      assert 0 <= i < |hs| && Fires(Triage(c, projectId, current, hs[..i]), current, hs[i]) && hs[i].raw == t.errors[k];
    }
  }

  /** The error of an href that raises sits in the log where the loop reached that href. */
  lemma LoggedWhereReached(c: Crawl, projectId: Option<string>, current: string, hs: seq<Href>, i: nat)
    requires i < |hs| && Fires(Triage(c, projectId, current, hs[..i]), current, hs[i])
    ensures var n := |Triage(c, projectId, current, hs[..i]).errors|;
      var t := Triage(c, projectId, current, hs);
      |c.errors| <= n < |t.errors| && t.errors[n] == hs[i].raw
  {
    var s := Triage(c, projectId, current, hs[..i]);
    assert hs[..i] + [hs[i]] == hs[..i + 1];
    LastStep(c, projectId, current, hs[..i], hs[i]);
    var s' := Triage(c, projectId, current, hs[..i + 1]);
    assert s'.errors == s.errors + [hs[i].raw];
    TriageGrows(c, projectId, current, hs[..i]);
    TriageContinues(c, projectId, current, hs[..i + 1], hs[i + 1..]);
    assert hs[..i + 1] + hs[i + 1..] == hs;
    TriageGrows(s', projectId, current, hs[i + 1..]);
    var t := Triage(c, projectId, current, hs);
    assert t.errors[..|s'.errors|] == s'.errors;
    assert t.errors[|s.errors|] == t.errors[..|s'.errors|][|s.errors|];
  }

  /**
    Every href whose processing raises gets its entry in the error log, in
    the place where the loop reached it: an exception in the loop body is
    never lost.
  */
  lemma TriageLogsEveryFault(c: Crawl, projectId: Option<string>, current: string, hs: seq<Href>)
    ensures var t := Triage(c, projectId, current, hs);
      forall i :: 0 <= i < |hs| && Fires(Triage(c, projectId, current, hs[..i]), current, hs[i]) ==>
        var n := |Triage(c, projectId, current, hs[..i]).errors|;
        |c.errors| <= n < |t.errors| && t.errors[n] == hs[i].raw
  {
    forall i | 0 <= i < |hs| && Fires(Triage(c, projectId, current, hs[..i]), current, hs[i])
      ensures var n := |Triage(c, projectId, current, hs[..i]).errors|;
        |c.errors| <= n < |Triage(c, projectId, current, hs).errors| && Triage(c, projectId, current, hs).errors[n] == hs[i].raw
    {
      LoggedWhereReached(c, projectId, current, hs, i);
    }
  }
}
