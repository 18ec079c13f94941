/**
 * The configuration grammar: `parse_word`, `parse_server` and `parse_config`,
 * a chain of nom combinators that threads the unconsumed input through each
 * step. Every parser here returns what it recognised together with that
 * remainder.
 */
module ConfigParser {
  import opened Wrappers
  import opened Decimal

  /** One virtual host: the name matched against Host, a port, and the upstream. */
  datatype ServerConfig = ServerConfig(servername: string, port: uint16, proxyPass: string)

  /**
   * The outcome of one parser. `Done` and `Fail` are nom's success and its
   * recoverable error; `Panic` is the process abort that `unwrap` causes when
   * the port word is not a `u16`.
   */
  datatype Parsed<T> = Done(value: T, rest: string) | Fail | Panic

  /** nom's `multispace0` skips spaces, tabs, carriage returns and line feeds. */
  predicate IsSpace(c: char)
  {
    c == ' ' || c == '\t' || c == '\r' || c == '\n'
  }

  predicate AllSpace(g: string)
  {
    forall i :: 0 <= i < |g| ==> IsSpace(g[i])
  }

  predicate IsAlphanumeric(c: char)
  {
    'a' <= c <= 'z' || 'A' <= c <= 'Z' || '0' <= c <= '9'
  }

  /** A character `parse_word` accepts: alphanumeric, `.` or `:`. */
  predicate IsWordChar(c: char)
  {
    IsAlphanumeric(c) || c == '.' || c == ':'
  }

  predicate IsWord(w: string)
  {
    w != [] && forall i :: 0 <= i < |w| ==> IsWordChar(w[i])
  }

  /** `multispace0` consumes exactly a whitespace run: `s` is that run followed by what it leaves. */
  lemma {:induction false} SkipSpaceSplit(s: string)
    ensures |SkipSpace(s)| <= |s|
    ensures AllSpace(s[..|s| - |SkipSpace(s)|])
    ensures s == s[..|s| - |SkipSpace(s)|] + SkipSpace(s)
  {
    if s != [] && IsSpace(s[0]) {
      SkipSpaceSplit(s[1..]);
      assert s[..|s| - |SkipSpace(s)|] == [s[0]] + s[1..][..|s[1..]| - |SkipSpace(s[1..])|];
    }
  }

  /** `tag(t)`: `t` itself must come first, and it is consumed. */
  function Tag(t: string, s: string): (r: Option<string>)
    ensures r.Some? <==> t <= s
    ensures r.Some? ==> s == t + r.value
  {
    if t <= s then Some(s[|t|..]) else None
  }

  /** `multispace0`: the suffix of `s` after its longest all-whitespace prefix. */
  function SkipSpace(s: string): (r: string)
    ensures |r| <= |s|
    ensures r == [] || !IsSpace(r[0])
  {
    if s != [] && IsSpace(s[0]) then SkipSpace(s[1..]) else s
  }

  /** The length of the longest prefix of `s` made of word characters. */
  function WordLength(s: string): (n: nat)
    ensures n <= |s|
    ensures forall i :: 0 <= i < n ==> IsWordChar(s[i])
    ensures n == |s| || !IsWordChar(s[n])
  {
    if s != [] && IsWordChar(s[0]) then 1 + WordLength(s[1..]) else 0
  }

  /** `parse_word`: `take_while1` of word characters. */
  function ParseWord(s: string): (r: Parsed<string>)
    ensures !r.Panic?
    ensures r.Done? <==> s != [] && IsWordChar(s[0])
    ensures r.Done? ==> IsWord(r.value) && s == r.value + r.rest
    ensures r.Done? ==> r.rest == [] || !IsWordChar(r.rest[0])
  {
    var n := WordLength(s);
    if n == 0 then Fail else Done(s[..n], s[n..])
  }

  /** `delimited(pair(tag(key), multispace0), parse_word, tag(";"))`. */
  function ParseField(key: string, s: string): (r: Parsed<string>)
    ensures !r.Panic?
    ensures r.Done? ==> IsWord(r.value) && |r.rest| < |s|
  {
    match Tag(key, s)
    case None => Fail
    case Some(afterKey) =>
      match ParseWord(SkipSpace(afterKey))
      case Done(w, afterWord) =>
        (match Tag(";", afterWord)
         case None => Fail
         case Some(rest) => Done(w, rest))
      case _ => Fail
  }

  /**
   * `parse_server`: `server {`, then the fields `servername`, `port` and
   * `proxy_pass` in that order, then `}`. The port word is converted as soon
   * as its field is read, so a bad port aborts even if the block is
   * incomplete after it.
   */
  function ParseServer(s: string): (r: Parsed<ServerConfig>)
    ensures !r.Fail? ==> "server" <= s
    ensures r.Done? ==> IsWord(r.value.servername) && IsWord(r.value.proxyPass)
    ensures r.Done? ==> |r.rest| < |s|
  {
    var afterServer := Tag("server", s);
    if afterServer.None? then Fail else
    var afterBrace := Tag("{", SkipSpace(afterServer.value));
    if afterBrace.None? then Fail else
    var name := ParseField("servername", SkipSpace(afterBrace.value));
    if !name.Done? then Fail else
    var port := ParseField("port", SkipSpace(name.rest));
    if !port.Done? then Fail else
    var portNumber := ParseU16(port.value);
    if portNumber.None? then Panic else
    var upstream := ParseField("proxy_pass", SkipSpace(port.rest));
    if !upstream.Done? then Fail else
    var afterClose := Tag("}", SkipSpace(upstream.rest));
    if afterClose.None? then Fail else
    Done(ServerConfig(name.value, portNumber.value, upstream.value), afterClose.value)
  }

  /**
   * `parse_config`: `many0(delimited(multispace0, parse_server, multispace0))`.
   * It collects blocks until one fails, and then returns what it has with
   * the input as it was before that block's leading whitespace; it never
   * fails itself. A port abort in any block aborts the whole parse.
   */
  function ParseConfig(s: string): (r: Parsed<seq<ServerConfig>>)
    ensures !r.Fail?
    ensures r.Done? ==> |r.rest| <= |s|
    decreases |s|
  {
    match ParseServer(SkipSpace(s))
    case Fail => Done([], s)
    case Panic => Panic
    case Done(c, afterBlock) =>
      var more := ParseConfig(SkipSpace(afterBlock));
      if more.Done? then Done([c] + more.value, more.rest) else Panic
  }

  /** `parse_config` stops only where no further block parses. */
  lemma {:induction false} ParseConfigStops(s: string)
    requires ParseConfig(s).Done?
    ensures ParseServer(SkipSpace(ParseConfig(s).rest)).Fail?
    decreases |s|
  {
    if ParseServer(SkipSpace(s)).Done? {
      ParseConfigStops(SkipSpace(ParseServer(SkipSpace(s)).rest));
    }
  }

  /** Every entry `parse_config` returns has a word as its name and as its upstream. */
  lemma {:induction false} ParseConfigWords(s: string)
    requires ParseConfig(s).Done?
    ensures forall c :: c in ParseConfig(s).value ==> IsWord(c.servername) && IsWord(c.proxyPass)
    decreases |s|
  {
    if ParseServer(SkipSpace(s)).Done? {
      ParseConfigWords(SkipSpace(ParseServer(SkipSpace(s)).rest));
    }
  }
}
