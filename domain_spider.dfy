/**
  The `DomainSpider` class: its state is the `visited_urls` and
  `checked_domains` sets, updated in place by `parse`. The rows it inserts,
  the requests it yields and the errors it logs are kept as ghost logs so
  that the contracts can speak of them.
*/
module DomainSpider {
  import opened Opt
  import opened LinkTriage

  /** Python's truth value of an optional string argument: given, and not the empty string. */
  predicate Given(s: Option<string>) {
    s.Some? && s.value != ""
  }

  /** `[start_url] if start_url else []`. */
  function StartUrls(startUrl: Option<string>): (urls: seq<string>)
    ensures |urls| <= 1
    ensures urls != [] <==> Given(startUrl)
    ensures forall i :: 0 <= i < |urls| ==> Some(urls[i]) == startUrl
  {
    if Given(startUrl) then [startUrl.value] else []
  }

  /** The keyword arguments `start_url` and `project_id` the spider is created with (both default to `None`). */
  datatype SpiderArgs = SpiderArgs(startUrl: Option<string>, projectId: Option<string>)

  /**
    One response handed to `parse`: its URL, that URL's netloc, its status,
    whether the `crawled_pages` insert raises, and the resolved hrefs of its
    `<a>` elements, or `None` when the response is not text and selecting
    them raises.
  */
  datatype Page = Page(url: string, netloc: string, status: int, insertFails: bool, links: Option<seq<Href>>)

  function LinksOf(page: Page): seq<Href> {
    if page.links.Some? then page.links.value else []
  }

  /**
    A page processed by `parse` gets exactly one `crawled_pages` row, for its
    URL and status, inserted before any row its links lead to; every row
    after it is a `checked_domains` row.
  */
  lemma PageRowComesFirst(c: Crawl, projectId: Option<string>, page: Page)
    ensures var row := CrawledPage(projectId, page.url, page.status);
      var t := Triage(c.(inserts := c.inserts + [row]), projectId, page.netloc, LinksOf(page));
      && |t.inserts| > |c.inserts|
      && t.inserts[..|c.inserts|] == c.inserts
      && t.inserts[|c.inserts|] == row
      && forall k :: |c.inserts| < k < |t.inserts| ==> t.inserts[k].CheckedDomain?
  {
    var row := CrawledPage(projectId, page.url, page.status);
    var start := c.(inserts := c.inserts + [row]);
    TriageGrows(start, projectId, page.netloc, LinksOf(page));
    TriageRecordsOnlyNewExternal(start, projectId, page.netloc, LinksOf(page));
    var t := Triage(start, projectId, page.netloc, LinksOf(page));
    assert t.inserts[..|c.inserts|] == t.inserts[..|start.inserts|][..|c.inserts|];
    assert t.inserts[|c.inserts|] == t.inserts[..|start.inserts|][|c.inserts|];
  }

  class Spider {
    var startUrls: seq<string>
    var projectId: Option<string>
    var visitedUrls: set<string>
    var checkedDomains: set<string>

    // the database tables, the scheduler and the error log, as seen from the spider
    ghost var inserts: seq<Row>
    ghost var requests: seq<string>
    ghost var errors: seq<string>

    ghost function State(): Crawl
      reads this
    {
      Crawl(visitedUrls, checkedDomains, inserts, requests, errors)
    }

    ghost predicate Valid()
      reads this
    {
      Consistent(State())
    }

    /** `DomainSpider.__init__`: the Supabase client it also creates is outside the model. */
    constructor (startUrl: Option<string>, projectId: Option<string>)
      ensures Valid()
      ensures startUrls == StartUrls(startUrl) && this.projectId == projectId
      ensures visitedUrls == {} && checkedDomains == {}
      ensures inserts == [] && requests == [] && errors == []
    {
      startUrls := StartUrls(startUrl);
      this.projectId := projectId;
      visitedUrls := {};
      checkedDomains := {};
      inserts := [];
      requests := [];
      errors := [];
    }

    /**
      `parse` run to the end over one page. It first records the page in
      `crawled_pages`; if that insert raises, nothing else happens. Then, if
      the page has links, it triages them one by one as `Triage` says,
      yielding the URLs to crawl; `raised` tells whether an exception left
      `parse` (the page insert, or selecting links of a non-text response).
    */
    method Parse(page: Page) returns (yielded: seq<string>, raised: bool)
      requires Valid()
      modifies this
      ensures Valid()
      ensures startUrls == old(startUrls) && projectId == old(projectId)
      ensures raised <==> page.insertFails || page.links.None?
      ensures page.insertFails ==> State() == old(State())
      ensures !page.insertFails ==>
        State() == Triage(old(State()).(inserts := old(inserts) + [CrawledPage(projectId, page.url, page.status)]),
                          projectId, page.netloc, LinksOf(page))
      ensures requests == old(requests) + yielded
    {
      yielded := [];
      if page.insertFails {
        return yielded, true;
      }
      inserts := inserts + [CrawledPage(projectId, page.url, page.status)];
      ghost var start := State();
      assert Consistent(start) by {
        assert forall i :: 0 <= i < |old(inserts)| ==> inserts[i] == old(inserts)[i];
      }
      if page.links.None? {
        assert Triage(start, projectId, page.netloc, []) == start;
        return yielded, true;
      }
      var hrefs := page.links.value;
      for i := 0 to |hrefs|
        invariant State() == Triage(start, projectId, page.netloc, hrefs[..i])
        invariant requests == old(requests) + yielded
        invariant startUrls == old(startUrls) && projectId == old(projectId)
      {
        var h := hrefs[i];
        ghost var before := State();
        if h.fault == ResolveFault {
          errors := errors + [h.raw];
        } else {
          var failed := false;
          if h.netloc != "" && h.netloc != page.netloc && h.netloc !in checkedDomains {
            checkedDomains := checkedDomains + {h.netloc};
            if h.fault == DomainFault {
              failed := true;
            } else {
              var expired := CheckDomain(h.dns, h.head);
              inserts := inserts + [CheckedDomain(projectId, h.netloc, expired)];
            }
          }
          if !failed && h.netloc == page.netloc && h.url !in visitedUrls {
            visitedUrls := visitedUrls + {h.url};
            if h.fault == RequestFault {
              failed := true;
            } else {
              yielded := yielded + [h.url];
              requests := requests + [h.url];
            }
          }
          if failed {
            errors := errors + [h.raw];
          }
        }
        assert State() == Step(before, projectId, page.netloc, h);
        assert hrefs[..i + 1][..i] == hrefs[..i];
      }
      assert hrefs[..|hrefs|] == hrefs;
      TriageKeepsConsistent(start, projectId, page.netloc, hrefs);
      raised := false;
    }
  }
}
