/**
  The backend's `POST /api/start-crawler` route: it reads `projectId` and
  `startUrl` from the JSON body, answers 400 when either is falsy, and
  otherwise hands one `pm2 start` command line to `exec`, answering 500
  when `exec` reports an error and a success body otherwise.
*/
module LaunchHandler {
  import opened Opt
  import opened CommandLine

  /** The integers a JavaScript number holds exactly: JSON numbers outside this range are rounded on parsing. */
  type SafeInt = n: int | -0x1F_FFFF_FFFF_FFFF <= n <= 0x1F_FFFF_FFFF_FFFF

  /**
    A field of the parsed JSON request body as JavaScript sees it:
    `Undefined` when the body lacks the field. JSON numbers are modelled
    as safe integers. An object remembers whether it has its own
    `toString` key: such a key, coming from JSON, is never a function.
  */
  datatype JsValue =
    | Undefined | Null | Bool(b: bool) | Num(n: SafeInt) | Str(s: string) | Arr(items: seq<JsValue>)
    | Obj(ownToString: bool)

  /** JavaScript's ToBoolean: the value that `!value` negates. */
  predicate Truthy(v: JsValue)
    ensures !Truthy(v) <==> v == Undefined || v == Null || v == Bool(false) || v == Num(0) || v == Str("")
  {
    match v
    case Undefined => false
    case Null => false
    case Bool(b) => b
    case Num(n) => n != 0
    case Str(s) => s != ""
    case Arr(_) => true
    case Obj(_) => true
  }

  function DigitChar(d: nat): char
    requires d < 10
  {
    ('0' as int + d) as char
  }

  /** The number a string of decimal digits denotes, most significant digit first. */
  function DecimalValue(ds: string): int
    decreases |ds|
  {
    if ds == [] then 0 else DecimalValue(ds[..|ds| - 1]) * 10 + (ds[|ds| - 1] as int - '0' as int)
  }

  /** The decimal digits of `n`, most significant first, without leading zeros. */
  function Digits(n: nat): (ds: string)
    ensures ds != [] && forall i :: 0 <= i < |ds| ==> '0' <= ds[i] <= '9'
    ensures ds[0] == '0' ==> ds == "0"
    ensures DecimalValue(ds) == n
    decreases n
  {
    if n < 10 then
      assert [DigitChar(n)][..0] == [];
      [DigitChar(n)]
    else
      var ds := Digits(n / 10) + [DigitChar(n % 10)];
      assert ds[..|ds| - 1] == Digits(n / 10);
      ds
  }

  /** `Array.prototype.join` with its default separator. */
  function Join(parts: seq<string>): string {
    if parts == [] then ""
    else if |parts| == 1 then parts[0]
    else Join(parts[..|parts| - 1]) + "," + parts[|parts| - 1]
  }

  /**
    Whether ToString of `v` returns: an object with its own `toString` key
    has neither a callable `toString` nor a `valueOf` that gives a
    primitive, so converting it throws a TypeError, and so does converting
    an array that holds such an object at any depth.
  */
  predicate Printable(v: JsValue)
    decreases v
  {
    match v
    case Obj(ownToString) => !ownToString
    case Arr(items) => forall i :: 0 <= i < |items| ==> Printable(items[i])
    case _ => true
  }

  /** The value reached from `v` by following `path` as array indices, if every step lands inside an array. */
  function At(v: JsValue, path: seq<int>): Option<JsValue>
    decreases |path|
  {
    if path == [] then Some(v)
    else
      match v
      case Arr(items) => if 0 <= path[0] < |items| then At(items[path[0]], path[1..]) else None
      case _ => None
  }

  /** A value that converts holds no object with its own `toString` key, at any depth of arrays. */
  lemma {:induction false} PrintableHasNoThrowingObject(v: JsValue, path: seq<int>)
    requires Printable(v)
    ensures At(v, path) != Some(Obj(true))
    decreases |path|
  {
    if path != [] && v.Arr? && 0 <= path[0] < |v.items| {
      PrintableHasNoThrowingObject(v.items[path[0]], path[1..]);
    }
  }

  /** A value that does not convert holds an object with its own `toString` key, at the returned path. */
  lemma {:induction false} ThrowingObjectPath(v: JsValue) returns (path: seq<int>)
    requires !Printable(v)
    ensures At(v, path) == Some(Obj(true))
    decreases v
  {
    match v
    case Arr(items) =>
      var i :| 0 <= i < |items| && !Printable(items[i]);
      var p := ThrowingObjectPath(items[i]);
      path := [i] + p;
      assert path[0] == i && path[1..] == p;
    case Obj(own) =>
      path := [];
  }

  /** Converting a value throws exactly when an object with its own `toString` key sits in it at some depth of arrays. */
  lemma PrintableAtAnyDepth(v: JsValue)
    ensures Printable(v) <==> forall path :: At(v, path) != Some(Obj(true))
  {
    if Printable(v) {
      forall path ensures At(v, path) != Some(Obj(true)) {
        PrintableHasNoThrowingObject(v, path);
      }
    } else {
      var path := ThrowingObjectPath(v);
    }
  }

  /** ToString of an integer: its decimal digits, after a `-` when it is negative. */
  function NumStr(n: int): (s: string)
    ensures n >= 0 ==> s == Digits(n) && DecimalValue(s) == n
    ensures n < 0 ==> s == "-" + Digits(-n) && DecimalValue(s[1..]) == -n
    ensures forall i :: 0 <= i < |s| ==> s[i] == '-' || '0' <= s[i] <= '9'
  {
    if n < 0 then
      var s := "-" + Digits(-n);
      assert s[1..] == Digits(-n);
      s
    else Digits(n)
  }

  /**
    JavaScript's ToString, as a template literal `${v}` applies it: a
    string is itself, an integer its decimal digits, a plain object
    `[object Object]`, an array the join of its elements with `null` and
    `undefined` written as empty strings.
  */
  function ToStr(v: JsValue): (s: string)
    requires Printable(v)
    ensures v.Str? ==> s == v.s
    ensures v.Num? ==> s == NumStr(v.n)
    ensures v.Obj? ==> s == "[object Object]"
    ensures v.Arr? && v.items == [] ==> s == ""
    decreases v
  {
    match v
    case Undefined => "undefined"
    case Null => "null"
    case Bool(b) => if b then "true" else "false"
    case Num(n) => NumStr(n)
    case Str(s) => s
    case Arr(items) =>
      // join writes an empty string for null and undefined elements
      Join(seq(|items|, i requires 0 <= i < |items| =>
        if items[i].Undefined? || items[i].Null? then "" else ToStr(items[i])))
    case Obj(_) => "[object Object]"
  }

  /** A number posted as either field prints without any character the shell interprets between double quotes. */
  lemma NumbersArePlain(n: SafeInt)
    ensures Plain(ToStr(Num(n)))
  {
    var s := ToStr(Num(n));
    forall i | 0 <= i < |s| ensures !ShellSpecial(s[i]) {
      assert s[i] == '-' || '0' <= s[i] <= '9';
    }
  }

  const MissingFields := "projectId et startUrl sont requis"
  const SpawnFailed := "Erreur lors du démarrage du crawler"
  const Started := "Crawler démarré avec succès"

  /**
    A response body: the route's JSON error or success bodies, or the page
    Express's default error handler sends when the handler throws.
  */
  datatype Body = ErrorBody(error: string) | SuccessBody(success: bool, message: string) | DefaultErrorPage

  datatype Response = Response(status: nat, body: Body)

  /** What one request leads to: the command line handed to `exec`, if any, and the one response sent. */
  datatype Handled = Handled(command: Option<string>, response: Response)

  const Script := "crawler/main.py"
  const Interpreter := "python3"

  /**
    The command line the route builds. Both values are spliced in as they
    are, without escaping: the project id twice, the start URL once, and
    the project id, quoted, is the last word.
  */
  function Pm2Command(projectId: string, startUrl: string): (cmd: string)
    ensures |cmd| == 74 + 2 * |projectId| + |startUrl|
    ensures cmd[..|cmd| - |projectId| - 2] + "\"" + projectId + "\"" == cmd
  {
    "pm2 start " + Script + " --name \"crawler-" + projectId + "\" --interpreter " + Interpreter
      + " -- \"" + startUrl + "\" \"" + projectId + "\""
  }

  /**
    The route for a body with the given `projectId` and `startUrl`;
    `execFails` is whether `exec` would report an error for the command
    (it is not consulted when no command is run). Building the command
    throws when either value cannot be converted to a string; Express then
    answers with its default error page.
  */
  function StartCrawler(projectId: JsValue, startUrl: JsValue, execFails: bool): (h: Handled)
    ensures h.command.Some? <==> Truthy(projectId) && Truthy(startUrl) && Printable(projectId) && Printable(startUrl)
    ensures !(Truthy(projectId) && Truthy(startUrl)) ==> h == Handled(None, Response(400, ErrorBody(MissingFields)))
    ensures Truthy(projectId) && Truthy(startUrl) && !(Printable(projectId) && Printable(startUrl)) ==>
              h == Handled(None, Response(500, DefaultErrorPage))
    ensures h.command.Some? ==> h.command.value == Pm2Command(ToStr(projectId), ToStr(startUrl))
    ensures h.command.Some? && execFails ==> h.response == Response(500, ErrorBody(SpawnFailed))
    ensures h.command.Some? && !execFails ==> h.response == Response(200, SuccessBody(true, Started))
    ensures h.response.status == 200 <==> h.command.Some? && !execFails
  {
    if !Truthy(projectId) || !Truthy(startUrl) then
      Handled(None, Response(400, ErrorBody(MissingFields)))
    else if !Printable(projectId) || !Printable(startUrl) then
      Handled(None, Response(500, DefaultErrorPage))
    else
      var command := Pm2Command(ToStr(projectId), ToStr(startUrl));
      if execFails then Handled(Some(command), Response(500, ErrorBody(SpawnFailed)))
      else Handled(Some(command), Response(200, SuccessBody(true, Started)))
  }

  lemma ConstantWordsAreBare()
    ensures BareWord("pm2") && BareWord("start") && BareWord(Script) && BareWord("--name")
    ensures BareWord("--interpreter") && BareWord(Interpreter) && BareWord("--")
  {
  }

  /** The template with its concatenations grouped from the right, as the shell reads it. */
  lemma CommandRightNested(projectId: string, startUrl: string)
    ensures Pm2Command(projectId, startUrl)
            == "pm2 start " + (Script + (" --name \"crawler-" + (projectId + ("\" --interpreter " + (Interpreter
               + (" -- \"" + (startUrl + ("\" \"" + (projectId + "\"")))))))))
  {
    var A, B, C, D, E, F := "pm2 start ", " --name \"crawler-", "\" --interpreter ", " -- \"", "\" \"", "\"";
    var p, u, S, I := projectId, startUrl, Script, Interpreter;
    calc {
      Pm2Command(p, u);
      (((((((((A + S) + B) + p) + C) + I) + D) + u) + E) + p) + F;
      ((((((((A + S) + B) + p) + C) + I) + D) + u) + E) + (p + F);
      (((((((A + S) + B) + p) + C) + I) + D) + u) + (E + (p + F));
      ((((((A + S) + B) + p) + C) + I) + D) + (u + (E + (p + F)));
      (((((A + S) + B) + p) + C) + I) + (D + (u + (E + (p + F))));
      ((((A + S) + B) + p) + C) + (I + (D + (u + (E + (p + F)))));
      (((A + S) + B) + p) + (C + (I + (D + (u + (E + (p + F))))));
      ((A + S) + B) + (p + (C + (I + (D + (u + (E + (p + F)))))));
      (A + S) + (B + (p + (C + (I + (D + (u + (E + (p + F))))))));
      A + (S + (B + (p + (C + (I + (D + (u + (E + (p + F)))))))));
    }
  }

  /** The words of the command as the template writes them. */
  function CommandTokens(projectId: string, startUrl: string): seq<Token> {
    [Bare("pm2"), Bare("start"), Bare(Script), Bare("--name"), Quoted("crawler-" + projectId),
     Bare("--interpreter"), Bare(Interpreter), Bare("--"), Quoted(startUrl), Quoted(projectId)]
  }

  lemma QuotedTail(p: string)
    ensures "\" \"" + (p + "\"") == "\"" + (" " + ("\"" + (p + "\"")))
  {
  }

  lemma UrlSegment(u: string, last: string)
    ensures " -- \"" + (u + ("\"" + (" " + last))) == " " + ("--" + (" " + (("\"" + (u + "\"")) + (" " + last))))
  {
  }

  lemma InterpreterSegment(i: string, rest: string)
    ensures "\" --interpreter " + (i + rest) == "\"" + (" " + ("--interpreter" + (" " + (i + rest))))
  {
  }

  lemma NameSegment(p: string, z: string)
    ensures " --name \"crawler-" + (p + ("\"" + z)) == " " + ("--name" + (" " + (("\"" + (("crawler-" + p) + "\"")) + z)))
  {
  }

  lemma HeadSegment(s: string, x: string)
    ensures "pm2 start " + (s + x) == "pm2" + (" " + ("start" + (" " + (s + x))))
  {
  }

  /** The template regrouped at the spaces between its words. */
  lemma CommandSpaced(projectId: string, startUrl: string)
    ensures Pm2Command(projectId, startUrl)
            == "pm2" + (" " + ("start" + (" " + (Script + (" " + ("--name" + (" " + (("\"" + (("crawler-" + projectId) + "\""))
               + (" " + ("--interpreter" + (" " + (Interpreter + (" " + ("--" + (" " + (("\"" + (startUrl + "\""))
               + (" " + ("\"" + (projectId + "\"")))))))))))))))))))
  {
    var p, u, S, I := projectId, startUrl, Script, Interpreter;
    var last := "\"" + (p + "\"");
    QuotedTail(p);
    var fromUrl := " -- \"" + (u + ("\" \"" + (p + "\"")));
    UrlSegment(u, last);
    var fromInterp := "\" --interpreter " + (I + fromUrl);
    InterpreterSegment(I, fromUrl);
    var z := " " + ("--interpreter" + (" " + (I + fromUrl)));
    NameSegment(p, z);
    HeadSegment(S, " --name \"crawler-" + (p + fromInterp));
    CommandRightNested(p, u);
  }

  /** The template writes out exactly the command's tokens, a single space apart. */
  lemma CommandIsUnwords(projectId: string, startUrl: string)
    ensures Pm2Command(projectId, startUrl) == Unwords(CommandTokens(projectId, startUrl))
  {
    var ts := CommandTokens(projectId, startUrl);
    assert Unwords(ts[9..]) == Text(ts[9]);
    assert Unwords(ts[8..]) == Text(ts[8]) + (" " + Unwords(ts[9..])) by { assert ts[8..][1..] == ts[9..]; }
    assert Unwords(ts[7..]) == Text(ts[7]) + (" " + Unwords(ts[8..])) by { assert ts[7..][1..] == ts[8..]; }
    assert Unwords(ts[6..]) == Text(ts[6]) + (" " + Unwords(ts[7..])) by { assert ts[6..][1..] == ts[7..]; }
    assert Unwords(ts[5..]) == Text(ts[5]) + (" " + Unwords(ts[6..])) by { assert ts[5..][1..] == ts[6..]; }
    assert Unwords(ts[4..]) == Text(ts[4]) + (" " + Unwords(ts[5..])) by { assert ts[4..][1..] == ts[5..]; }
    assert Unwords(ts[3..]) == Text(ts[3]) + (" " + Unwords(ts[4..])) by { assert ts[3..][1..] == ts[4..]; }
    assert Unwords(ts[2..]) == Text(ts[2]) + (" " + Unwords(ts[3..])) by { assert ts[2..][1..] == ts[3..]; }
    assert Unwords(ts[1..]) == Text(ts[1]) + (" " + Unwords(ts[2..])) by { assert ts[1..][1..] == ts[2..]; }
    assert Unwords(ts) == Text(ts[0]) + (" " + Unwords(ts[1..]));
    CommandSpaced(projectId, startUrl);
  }

  lemma CommandValues(projectId: string, startUrl: string)
    ensures Values(CommandTokens(projectId, startUrl))
            == ["pm2", "start", Script, "--name", "crawler-" + projectId, "--interpreter", Interpreter,
                "--", startUrl, projectId]
  {
    var ts := CommandTokens(projectId, startUrl);
    assert Values(ts[9..]) == [projectId] by { assert ts[9..][1..] == []; }
    assert Values(ts[8..]) == [startUrl] + Values(ts[9..]) by { assert ts[8..][1..] == ts[9..]; }
    assert Values(ts[7..]) == ["--"] + Values(ts[8..]) by { assert ts[7..][1..] == ts[8..]; }
    assert Values(ts[6..]) == [Interpreter] + Values(ts[7..]) by { assert ts[6..][1..] == ts[7..]; }
    assert Values(ts[5..]) == ["--interpreter"] + Values(ts[6..]) by { assert ts[5..][1..] == ts[6..]; }
    assert Values(ts[4..]) == ["crawler-" + projectId] + Values(ts[5..]) by { assert ts[4..][1..] == ts[5..]; }
    assert Values(ts[3..]) == ["--name"] + Values(ts[4..]) by { assert ts[3..][1..] == ts[4..]; }
    assert Values(ts[2..]) == [Script] + Values(ts[3..]) by { assert ts[2..][1..] == ts[3..]; }
    assert Values(ts[1..]) == ["start"] + Values(ts[2..]) by { assert ts[1..][1..] == ts[2..]; }
    assert Values(ts) == ["pm2"] + Values(ts[1..]);
  }

  lemma CommandTokensWellFormed(projectId: string, startUrl: string)
    requires Plain(projectId) && Plain(startUrl)
    ensures forall i :: 0 <= i < 10 ==> WellFormed(CommandTokens(projectId, startUrl)[i])
  {
    var name := "crawler-" + projectId;
    assert Plain(name) by {
      forall i | 0 <= i < |name| ensures !ShellSpecial(name[i]) {
        if i >= 8 { assert name[i] == projectId[i - 8]; }
      }
    }
    ConstantWordsAreBare();
  }

  /** The shell splits the command into ten words, the two values among them unchanged. */
  lemma CommandWords(projectId: string, startUrl: string)
    requires Plain(projectId) && Plain(startUrl)
    ensures Words(Pm2Command(projectId, startUrl))
            == Some(["pm2", "start", Script, "--name", "crawler-" + projectId, "--interpreter", Interpreter,
                     "--", startUrl, projectId])
  {
    CommandTokensWellFormed(projectId, startUrl);
    WordsOfUnwords(CommandTokens(projectId, startUrl));
    CommandIsUnwords(projectId, startUrl);
    CommandValues(projectId, startUrl);
  }

  /**
    Read back with the shell's word splitting, the command asks pm2 to run
    `crawler/main.py` under `python3` as the process `crawler-<projectId>`,
    with the start URL first and the project id second, provided neither
    value holds a character the shell interprets between double quotes.
  */
  lemma CommandReadsBack(projectId: string, startUrl: string)
    requires Plain(projectId) && Plain(startUrl)
    ensures ReadPm2Start(Pm2Command(projectId, startUrl))
            == Some(Pm2Start(Script, "crawler-" + projectId, Interpreter, [startUrl, projectId]))
  {
    CommandWords(projectId, startUrl);
    var ws := ["pm2", "start", Script, "--name", "crawler-" + projectId, "--interpreter", Interpreter,
               "--", startUrl, projectId];
    assert ws[8..] == [startUrl, projectId];
  }

  /** Distinct plain requests build distinct commands: the command determines both values. */
  lemma CommandDeterminesInputs(p1: string, u1: string, p2: string, u2: string)
    requires Plain(p1) && Plain(u1) && Plain(p2) && Plain(u2)
    requires Pm2Command(p1, u1) == Pm2Command(p2, u2)
    ensures p1 == p2 && u1 == u2
  {
    CommandReadsBack(p1, u1);
    CommandReadsBack(p2, u2);
    assert [u1, p1] == [u2, p2];
  }
}
