/**
  Reading a command line back into words, the way `/bin/sh` reads the
  simple lines the launch endpoint builds: words are separated by single
  spaces, and a word is either a plain word (letters, digits and a few
  punctuation marks) or a double-quoted word whose quotes are dropped.
  A character the shell would expand or interpret (`$`, a backquote, a
  backslash, a stray quote, other metacharacters) is outside this reading,
  and `Words` gives `None` for it rather than guess. The first word is not
  checked for a variable assignment (`a=b`) or a reserved word (`if`),
  which the shell treats specially in command position; the lines read
  here start with `pm2`.
*/
module CommandLine {
  import opened Opt

  /** Index of the first occurrence of `x` in `s`, or `|s|` when there is none. */
  function IndexOf<T(==)>(s: seq<T>, x: T): (i: nat)
    ensures i <= |s|
    ensures i < |s| ==> s[i] == x
    ensures forall k :: 0 <= k < i ==> s[k] != x
  {
    if s == [] then 0
    else if s[0] == x then 0
    else 1 + IndexOf(s[1..], x)
  }

  /** Characters the shell still interprets between double quotes. */
  predicate ShellSpecial(c: char) {
    c == '"' || c == '$' || c == '`' || c == '\\'
  }

  /**
    A string that the shell passes through a pair of double quotes
    unchanged and that a process argument can hold: no NUL, since arguments
    are C strings.
  */
  predicate Plain(s: string) {
    forall i :: 0 <= i < |s| ==> !ShellSpecial(s[i]) && s[i] != '\0'
  }

  /** Characters that may make up an unquoted word without the shell interpreting them. */
  predicate BareChar(c: char) {
    ('a' <= c <= 'z') || ('A' <= c <= 'Z') || ('0' <= c <= '9') ||
    c == '-' || c == '_' || c == '.' || c == '/' || c == ':' || c == '=' || c == '+' || c == ',' || c == '@'
  }

  predicate BareWord(w: string) {
    w != [] && forall i :: 0 <= i < |w| ==> BareChar(w[i])
  }

  /**
    The first word of a non-empty line and the number of characters it
    occupies, quotes included; `None` when the line does not start with a
    word of this reading.
  */
  function FirstWord(s: string): (r: Option<(string, nat)>)
    requires s != []
    ensures r.Some? ==> 0 < r.value.1 <= |s|
  {
    if s[0] == '"' then
      var j := IndexOf(s[1..], '"');
      if j == |s| - 1 || !Plain(s[1..1 + j]) then None
      else Some((s[1..1 + j], j + 2))
    else
      var j := IndexOf(s, ' ');
      if BareWord(s[..j]) then Some((s[..j], j)) else None
  }

  /** The words of a command line, or `None` when it is outside this reading. */
  function Words(s: string): Option<seq<string>>
    decreases |s|
  {
    if s == [] then Some([])
    else
      match FirstWord(s)
      case None => None
      case Some((w, k)) =>
        if k == |s| then Some([w])
        else if s[k] != ' ' then None
        else
          match Words(s[k + 1..])
          case None => None
          case Some(ws) => Some([w] + ws)
  }

  /** A word as the line writes it: plain, or between double quotes. */
  datatype Token = Bare(w: string) | Quoted(v: string)

  /** How the token is written on the line. */
  function Text(t: Token): string {
    match t
    case Bare(w) => w
    case Quoted(v) => "\"" + (v + "\"")
  }

  /** The word the shell makes of the token. */
  function Value(t: Token): string {
    match t
    case Bare(w) => w
    case Quoted(v) => v
  }

  predicate WellFormed(t: Token) {
    match t
    case Bare(w) => BareWord(w)
    case Quoted(v) => Plain(v)
  }

  /** The tokens written out with a single space between each two. */
  function Unwords(ts: seq<Token>): string {
    if ts == [] then ""
    else if |ts| == 1 then Text(ts[0])
    else Text(ts[0]) + (" " + Unwords(ts[1..]))
  }

  function Values(ts: seq<Token>): seq<string> {
    if ts == [] then [] else [Value(ts[0])] + Values(ts[1..])
  }

  lemma BareThenRest(w: string, rest: string, ws: seq<string>)
    requires BareWord(w) && Words(rest) == Some(ws)
    ensures Words(w + (" " + rest)) == Some([w] + ws)
  {
    var s := w + (" " + rest);
    assert s[..|w|] == w;
    assert IndexOf(s, ' ') == |w| by { assert s[|w|] == ' '; }
    assert s[|w| + 1..] == rest;
  }

  /** A quoted plain word at the head of a line is its first word, quotes included in its length. */
  lemma QuotedFirst(v: string, tail: string)
    requires Plain(v)
    ensures FirstWord(("\"" + (v + "\"")) + tail) == Some((v, |v| + 2))
  {
    var s := ("\"" + (v + "\"")) + tail;
    assert s[1..] == v + ("\"" + tail);
    assert IndexOf(s[1..], '"') == |v| by {
      assert s[1..][|v|] == '"';
      assert forall k :: 0 <= k < |v| ==> s[1..][k] == v[k] && !ShellSpecial(v[k]);
    }
    assert s[1..1 + |v|] == v;
  }

  lemma QuotedThenRest(v: string, rest: string, ws: seq<string>)
    requires Plain(v) && Words(rest) == Some(ws)
    ensures Words(("\"" + (v + "\"")) + (" " + rest)) == Some([v] + ws)
  {
    var s := ("\"" + (v + "\"")) + (" " + rest);
    QuotedFirst(v, " " + rest);
    assert s[|v| + 2] == ' ';
    assert s[|v| + 3..] == rest;
  }

  /** A well-formed token written out first is read back as its word, and the reading goes on after the space. */
  lemma TokenThenRest(t: Token, rest: string, ws: seq<string>)
    requires WellFormed(t) && Words(rest) == Some(ws)
    ensures Words(Text(t) + (" " + rest)) == Some([Value(t)] + ws)
  {
    match t
    case Bare(w) => BareThenRest(w, rest, ws);
    case Quoted(v) => QuotedThenRest(v, rest, ws);
  }

  lemma TokenLast(t: Token)
    requires WellFormed(t)
    ensures Words(Text(t)) == Some([Value(t)])
  {
    var s := Text(t);
    match t
    case Bare(w) =>
      assert IndexOf(s, ' ') == |s|;
      assert s[..|s|] == s;
    case Quoted(v) =>
      assert s[1..] == v + "\"";
      assert IndexOf(s[1..], '"') == |v| by { assert s[1..][|v|] == '"'; }
      assert s[1..1 + |v|] == v;
  }

  /** Reading a line written from well-formed tokens gives back their words, in order. */
  lemma {:induction false} WordsOfUnwords(ts: seq<Token>)
    requires forall i :: 0 <= i < |ts| ==> WellFormed(ts[i])
    ensures Words(Unwords(ts)) == Some(Values(ts))
    decreases |ts|
  {
    if ts == [] {
    } else if |ts| == 1 {
      TokenLast(ts[0]);
      assert Values(ts) == [Value(ts[0])];
    } else {
      WordsOfUnwords(ts[1..]);
      TokenThenRest(ts[0], Unwords(ts[1..]), Values(ts[1..]));
    }
  }

  /** What `pm2 start <script> --name <name> --interpreter <interpreter> -- <args...>` asks pm2 to run. */
  datatype Pm2Start = Pm2Start(script: string, name: string, interpreter: string, scriptArgs: seq<string>)

  /** The pm2 start request a command line of exactly that shape makes, or `None` for any other line. */
  function ReadPm2Start(cmd: string): Option<Pm2Start> {
    match Words(cmd)
    case None => None
    case Some(ws) =>
      if |ws| >= 8 && ws[0] == "pm2" && ws[1] == "start" && ws[3] == "--name"
         && ws[5] == "--interpreter" && ws[7] == "--"
      then Some(Pm2Start(ws[2], ws[4], ws[6], ws[8..]))
      else None
  }

  /** The `sys.argv` the interpreter hands to the script pm2 starts: the script, then the arguments after `--`. */
  function ScriptArgv(p: Pm2Start): seq<string> {
    [p.script] + p.scriptArgs
  }
}
