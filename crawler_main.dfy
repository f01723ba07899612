/**
  The crawler's entry script: it checks that it was given exactly two
  arguments, a start URL and a project id in that order, and starts a
  Scrapy process running `DomainSpider` with them as keyword arguments.
*/
module CrawlerMain {
  import opened Opt
  import opened DomainSpider

  const UsageLine := "Usage: python main.py <start_url> <project_id>"

  /** How a run of the script ends: a crawl of the spider with these arguments, or the usage line and an exit status. */
  datatype Run = Launched(args: SpiderArgs) | UsageExit(printed: string, status: int)

  /** `start_crawler`: the arguments reach the spider unchanged, each under its own keyword. */
  function StartCrawler(startUrl: string, projectId: string): (args: SpiderArgs)
    ensures args.startUrl == Some(startUrl) && args.projectId == Some(projectId)
  {
    SpiderArgs(startUrl := Some(startUrl), projectId := Some(projectId))
  }

  /**
    The `__main__` block for `sys.argv`: with anything but a script name and
    two arguments it prints the usage line and exits with status 1 without
    starting a crawl; otherwise the first argument is the start URL and the
    second the project id.
  */
  function RunScript(argv: seq<string>): (r: Run)
    ensures r.UsageExit? <==> |argv| != 3
    ensures r.UsageExit? ==> r.printed == UsageLine && r.status == 1
    ensures r.Launched? ==> r.args == SpiderArgs(Some(argv[1]), Some(argv[2]))
  {
    if |argv| != 3 then UsageExit(UsageLine, 1)
    else
      var startUrl := argv[1];
      var projectId := argv[2];
      Launched(StartCrawler(startUrl, projectId))
  }

  /** A spider launched by the script starts from the URL it was given, when that URL is not empty. */
  lemma LaunchedSpiderStartsAt(script: string, startUrl: string, projectId: string)
    ensures RunScript([script, startUrl, projectId]).Launched?
    ensures var args := RunScript([script, startUrl, projectId]).args;
      && StartUrls(args.startUrl) == (if startUrl == "" then [] else [startUrl])
      && args.projectId == Some(projectId)
  {
  }
}
