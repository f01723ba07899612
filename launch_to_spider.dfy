/**
  The launch endpoint and the crawler's entry script agree on the order of
  the two positional arguments: the endpoint writes the start URL first and
  the project id second, and the script reads them back in that order, so
  the values posted to the endpoint reach the spider under the right
  keywords.
*/
module LaunchToSpider {
  import opened Opt
  import opened CommandLine
  import LaunchHandler
  import CrawlerMain
  import DomainSpider

  /**
    For a valid request whose two values convert to strings and, as
    JavaScript prints them, hold no character the shell interprets between
    double quotes, the command run by
    the endpoint starts `crawler/main.py` as the process `crawler-<projectId>`,
    and the script launches the spider with `start_url` the posted start URL
    and `project_id` the posted project id. This holds whatever `exec`
    reports.
  */
  lemma PostedValuesReachSpider(projectId: LaunchHandler.JsValue, startUrl: LaunchHandler.JsValue, execFails: bool)
    requires LaunchHandler.Truthy(projectId) && LaunchHandler.Truthy(startUrl)
    requires LaunchHandler.Printable(projectId) && LaunchHandler.Printable(startUrl)
    requires Plain(LaunchHandler.ToStr(projectId)) && Plain(LaunchHandler.ToStr(startUrl))
    ensures var h := LaunchHandler.StartCrawler(projectId, startUrl, execFails);
      && h.command.Some?
      && ReadPm2Start(h.command.value).Some?
      && ReadPm2Start(h.command.value).value.script == LaunchHandler.Script
      && ReadPm2Start(h.command.value).value.name == "crawler-" + LaunchHandler.ToStr(projectId)
      && CrawlerMain.RunScript(ScriptArgv(ReadPm2Start(h.command.value).value))
         == CrawlerMain.Launched(DomainSpider.SpiderArgs(Some(LaunchHandler.ToStr(startUrl)), Some(LaunchHandler.ToStr(projectId))))
  {
    var p, u := LaunchHandler.ToStr(projectId), LaunchHandler.ToStr(startUrl);
    LaunchHandler.CommandReadsBack(p, u);
    var started := Pm2Start(LaunchHandler.Script, "crawler-" + p, LaunchHandler.Interpreter, [u, p]);
    assert ScriptArgv(started) == [LaunchHandler.Script, u, p];
  }

  /**
    `startUrl: []` passes the endpoint's check, since an empty array is
    truthy, yet prints as the empty string: the endpoint answers success
    (when `exec` does) while the spider it launches has no start URL.
  */
  lemma EmptyArrayStartUrlCrawlsNothing(projectId: string)
    requires projectId != "" && Plain(projectId)
    ensures var h := LaunchHandler.StartCrawler(LaunchHandler.Str(projectId), LaunchHandler.Arr([]), false);
      && h.response.status == 200
      && h.command.Some?
      && ReadPm2Start(h.command.value).Some?
      && var run := CrawlerMain.RunScript(ScriptArgv(ReadPm2Start(h.command.value).value));
         run.Launched? && DomainSpider.StartUrls(run.args.startUrl) == []
  {
    assert LaunchHandler.ToStr(LaunchHandler.Arr([])) == "";
    PostedValuesReachSpider(LaunchHandler.Str(projectId), LaunchHandler.Arr([]), false);
  }
}
