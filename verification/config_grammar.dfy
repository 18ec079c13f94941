/**
 * The concrete syntax of a `server` block, and what `parse_server` and
 * `parse_config` do with it: the block texts they accept, the entries they
 * return, and the configuration text that prints a list of entries so that it
 * parses back unchanged.
 */
module ConfigGrammar {
  import opened Wrappers
  import opened Decimal
  import opened ConfigParser

  /**
   * One block as written. `gaps` are the eight whitespace runs that
   * `multispace0` allows: after `server`, after `{`, after each of the three
   * keywords, after each of the three `;`.
   */
  datatype BlockText = BlockText(name: string, portText: string, upstream: string, gaps: seq<string>)

  /** The fields and gaps up to and including the port field are well formed. */
  predicate HeadWellFormed(b: BlockText)
  {
    && |b.gaps| == 8
    && (forall g :: g in b.gaps ==> AllSpace(g))
    && IsWord(b.name) && IsWord(b.portText)
  }

  /** The whole block is well formed and its port word is a `u16`. */
  predicate WellFormed(b: BlockText)
  {
    HeadWellFormed(b) && IsWord(b.upstream) && ParseU16(b.portText).Some?
  }

  /** The entry a well-formed block denotes. */
  function Meaning(b: BlockText): ServerConfig
    requires WellFormed(b)
  {
    ServerConfig(b.name, ParseU16(b.portText).value, b.upstream)
  }

  function FieldText(key: string, gap: string, word: string): string
  {
    key + gap + word + ";"
  }

  /** The text up to and including the port field. */
  function HeadText(b: BlockText): string
    requires |b.gaps| == 8
  {
    "server" + b.gaps[0] + "{" + b.gaps[1] + FieldText("servername", b.gaps[2], b.name)
      + b.gaps[3] + FieldText("port", b.gaps[4], b.portText)
  }

  function Render(b: BlockText): string
    requires |b.gaps| == 8
  {
    HeadText(b) + b.gaps[5] + FieldText("proxy_pass", b.gaps[6], b.upstream) + b.gaps[7] + "}"
  }

  // Steps of the parse of a rendered block.

  lemma TagConcat(t: string, x: string)
    ensures Tag(t, t + x) == Some(x)
  {
    assert t <= t + x;
  }

  lemma {:induction false} SkipSpaceConcat(g: string, x: string)
    requires AllSpace(g)
    requires x == [] || !IsSpace(x[0])
    ensures SkipSpace(g + x) == x
  {
    if g != [] {
      assert (g + x)[1..] == g[1..] + x;
      SkipSpaceConcat(g[1..], x);
    } else {
      assert g + x == x;
    }
  }

  lemma {:induction false} WordLengthConcat(w: string, x: string)
    requires forall i :: 0 <= i < |w| ==> IsWordChar(w[i])
    requires x == [] || !IsWordChar(x[0])
    ensures WordLength(w + x) == |w|
  {
    if w != [] {
      assert (w + x)[1..] == w[1..] + x;
      WordLengthConcat(w[1..], x);
    } else {
      assert w + x == x;
    }
  }

  lemma ParseWordConcat(w: string, x: string)
    requires IsWord(w)
    requires x == [] || !IsWordChar(x[0])
    ensures ParseWord(w + x) == Done(w, x)
  {
    WordLengthConcat(w, x);
    assert (w + x)[..|w|] == w;
    assert (w + x)[|w|..] == x;
  }

  lemma ParseFieldConcat(key: string, gap: string, word: string, x: string)
    requires AllSpace(gap) && IsWord(word)
    ensures ParseField(key, FieldText(key, gap, word) + x) == Done(word, x)
  {
    var afterKey := gap + (word + (";" + x));
    assert FieldText(key, gap, word) + x == key + afterKey;
    TagConcat(key, afterKey);
    assert !IsSpace(word[0]);
    SkipSpaceConcat(gap, word + (";" + x));
    ParseWordConcat(word, ";" + x);
    TagConcat(";", x);
  }

  /** A field starts with its keyword's first character. */
  lemma FieldTextStart(key: string, gap: string, word: string, x: string)
    requires key != []
    ensures (FieldText(key, gap, word) + x)[0] == key[0]
  {
  }

  lemma Assoc(a: string, b: string, c: string)
    ensures a + b + c == a + (b + c)
  {
  }

  lemma Assoc4(a: string, b: string, c: string, d: string, e: string)
    ensures a + (b + (c + (d + e))) == a + b + c + d + e
  {
  }

  /** The head of a block followed by `x`, regrouped the way the parser consumes it. */
  lemma HeadRegroup(g0: string, g1: string, f1: string, g3: string, f2: string, x: string)
    ensures "server" + g0 + "{" + g1 + f1 + g3 + f2 + x
         == "server" + (g0 + ("{" + (g1 + (f1 + (g3 + (f2 + x))))))
  {
    var l2 := "server" + g0;
    var l3 := l2 + "{";
    var l4 := l3 + g1;
    var l5 := l4 + f1;
    var l6 := l5 + g3;
    calc {
      l6 + f2 + x;
      { Assoc(l6, f2, x); }
      l6 + (f2 + x);
      { Assoc(l5, g3, f2 + x); }
      l5 + (g3 + (f2 + x));
      { Assoc(l4, f1, g3 + (f2 + x)); }
      l4 + (f1 + (g3 + (f2 + x)));
      { Assoc(l3, g1, f1 + (g3 + (f2 + x))); }
      l3 + (g1 + (f1 + (g3 + (f2 + x))));
      { Assoc(l2, "{", g1 + (f1 + (g3 + (f2 + x)))); }
      l2 + ("{" + (g1 + (f1 + (g3 + (f2 + x)))));
      { Assoc("server", g0, "{" + (g1 + (f1 + (g3 + (f2 + x))))); }
      "server" + (g0 + ("{" + (g1 + (f1 + (g3 + (f2 + x))))));
    }
  }

  /** The tail of a block after its head `h`, followed by `x`, regrouped the same way. */
  lemma TailRegroup(h: string, g5: string, f3: string, g7: string, x: string)
    ensures h + g5 + f3 + g7 + "}" + x == h + (g5 + (f3 + (g7 + ("}" + x))))
  {
    var l5 := h + g5;
    var l6 := l5 + f3;
    var l7 := l6 + g7;
    calc {
      l7 + "}" + x;
      { Assoc(l7, "}", x); }
      l7 + ("}" + x);
      { Assoc(l6, g7, "}" + x); }
      l6 + (g7 + ("}" + x));
      { Assoc(l5, f3, g7 + ("}" + x)); }
      l5 + (f3 + (g7 + ("}" + x)));
      { Assoc(h, g5, f3 + (g7 + ("}" + x))); }
      h + (g5 + (f3 + (g7 + ("}" + x))));
    }
  }

  lemma HeadSplit(b: BlockText, x: string)
    requires |b.gaps| == 8
    ensures HeadText(b) + x
         == "server" + (b.gaps[0] + ("{" + (b.gaps[1] + (FieldText("servername", b.gaps[2], b.name)
              + (b.gaps[3] + (FieldText("port", b.gaps[4], b.portText) + x))))))
  {
    HeadRegroup(b.gaps[0], b.gaps[1], FieldText("servername", b.gaps[2], b.name), b.gaps[3],
                FieldText("port", b.gaps[4], b.portText), x);
  }

  lemma RenderSplit(b: BlockText, x: string)
    requires |b.gaps| == 8
    ensures Render(b) + x
         == HeadText(b) + (b.gaps[5] + (FieldText("proxy_pass", b.gaps[6], b.upstream) + (b.gaps[7] + ("}" + x))))
  {
    TailRegroup(HeadText(b), b.gaps[5], FieldText("proxy_pass", b.gaps[6], b.upstream), b.gaps[7], x);
  }

  lemma ParseFieldSound(key: string, s: string)
    requires ParseField(key, s).Done?
    ensures exists gap :: AllSpace(gap) && s == FieldText(key, gap, ParseField(key, s).value) + ParseField(key, s).rest
  {
    var afterKey := Tag(key, s).value;
    var u := SkipSpace(afterKey);
    var gap := afterKey[..|afterKey| - |u|];
    SkipSpaceSplit(afterKey);
    var w := ParseWord(u);
    var rest := Tag(";", w.rest).value;
    calc {
      s;
      key + afterKey;
      key + (gap + (w.value + (";" + rest)));
      { Assoc4(key, gap, w.value, ";", rest); }
      FieldText(key, gap, w.value) + rest;
    }
  }

  /** The steps of `parse_server` up to and including its port field, on the head of a block. */
  lemma HeadSteps(b: BlockText, x: string)
    requires HeadWellFormed(b)
    ensures var afterServer := Tag("server", HeadText(b) + x);
      afterServer.Some? && Tag("{", SkipSpace(afterServer.value)).Some?
      && ParseField("servername", SkipSpace(Tag("{", SkipSpace(afterServer.value)).value))
         == Done(b.name, b.gaps[3] + (FieldText("port", b.gaps[4], b.portText) + x))
    ensures ParseField("port", SkipSpace(b.gaps[3] + (FieldText("port", b.gaps[4], b.portText) + x)))
         == Done(b.portText, x)
  {
    var t4 := FieldText("port", b.gaps[4], b.portText) + x;
    var t3 := b.gaps[3] + t4;
    var t2 := FieldText("servername", b.gaps[2], b.name) + t3;
    var t1 := b.gaps[1] + t2;
    var t0 := "{" + t1;
    var tg := b.gaps[0] + t0;
    GapsOf(b);
    HeadSplit(b, x);
    TagConcat("server", tg);
    SkipSpaceConcat(b.gaps[0], t0);
    TagConcat("{", t1);
    FieldTextStart("servername", b.gaps[2], b.name, t3);
    SkipSpaceConcat(b.gaps[1], t2);
    ParseFieldConcat("servername", b.gaps[2], b.name, t3);
    FieldTextStart("port", b.gaps[4], b.portText, x);
    SkipSpaceConcat(b.gaps[3], t4);
    ParseFieldConcat("port", b.gaps[4], b.portText, x);
  }

  /**
   * Completeness: every well-formed block parses to the entry it denotes,
   * and the parse stops right after its `}`, whatever follows.
   */
  lemma ParseServerRender(b: BlockText, rest: string)
    requires WellFormed(b)
    ensures ParseServer(Render(b) + rest) == Done(Meaning(b), rest)
  {
    var t8 := "}" + rest;
    var t7 := b.gaps[7] + t8;
    var t6 := FieldText("proxy_pass", b.gaps[6], b.upstream) + t7;
    var t5 := b.gaps[5] + t6;
    GapsOf(b);
    RenderSplit(b, rest);
    HeadSteps(b, t5);
    FieldTextStart("proxy_pass", b.gaps[6], b.upstream, t7);
    SkipSpaceConcat(b.gaps[5], t6);
    ParseFieldConcat("proxy_pass", b.gaps[6], b.upstream, t7);
    SkipSpaceConcat(b.gaps[7], t8);
    TagConcat("}", rest);
  }

  /**
   * A port word that is not a `u16` aborts the parse as soon as its field is
   * read, whatever follows it: an incomplete block does not save it.
   */
  lemma ParseServerBadPort(b: BlockText, rest: string)
    requires HeadWellFormed(b) && ParseU16(b.portText).None?
    ensures ParseServer(HeadText(b) + rest) == Panic
  {
    HeadSteps(b, rest);
  }

  lemma GapsSpace(g0: string, g1: string, g2: string, g3: string, g4: string, g5: string, g6: string, g7: string)
    requires AllSpace(g0) && AllSpace(g1) && AllSpace(g2) && AllSpace(g3)
    requires AllSpace(g4) && AllSpace(g5) && AllSpace(g6) && AllSpace(g7)
    ensures forall g :: g in [g0, g1, g2, g3, g4, g5, g6, g7] ==> AllSpace(g)
  {
  }

  lemma GapsOf(b: BlockText)
    requires HeadWellFormed(b)
    ensures AllSpace(b.gaps[0]) && AllSpace(b.gaps[1]) && AllSpace(b.gaps[2]) && AllSpace(b.gaps[3])
    ensures AllSpace(b.gaps[4]) && AllSpace(b.gaps[5]) && AllSpace(b.gaps[6]) && AllSpace(b.gaps[7])
  {
    assert b.gaps[0] in b.gaps && b.gaps[1] in b.gaps && b.gaps[2] in b.gaps && b.gaps[3] in b.gaps;
    assert b.gaps[4] in b.gaps && b.gaps[5] in b.gaps && b.gaps[6] in b.gaps && b.gaps[7] in b.gaps;
  }

  /** What `multispace0` skips is a whitespace run. */
  lemma SkipSpaceGap(x: string)
    ensures exists g :: AllSpace(g) && x == g + SkipSpace(x)
  {
    SkipSpaceSplit(x);
    var g := x[..|x| - |SkipSpace(x)|];
    assert AllSpace(g) && x == g + SkipSpace(x);
  }

  /** The head of a block, from the pieces its parse consumed. */
  lemma AssembleHead(s: string, s1: string, u1: string, s2: string, u2: string, r2: string, u3: string,
                     g0: string, g1: string, g2: string, g3: string, g4: string,
                     name: string, portText: string, rest: string)
    requires AllSpace(g0) && AllSpace(g1) && AllSpace(g2) && AllSpace(g3) && AllSpace(g4)
    requires IsWord(name) && IsWord(portText)
    requires s == "server" + s1 && s1 == g0 + u1 && u1 == "{" + s2 && s2 == g1 + u2
    requires u2 == FieldText("servername", g2, name) + r2 && r2 == g3 + u3
    requires u3 == FieldText("port", g4, portText) + rest
    ensures exists b ::
      HeadWellFormed(b) && b.name == name && b.portText == portText && s == HeadText(b) + rest
  {
    GapsSpace(g0, g1, g2, g3, g4, "", "", "");
    HeadRegroup(g0, g1, FieldText("servername", g2, name), g3, FieldText("port", g4, portText), rest);
    var b := BlockText(name, portText, "", [g0, g1, g2, g3, g4, "", "", ""]);
    assert HeadWellFormed(b) && s == HeadText(b) + rest;
  }

  /**
   * The steps of `parse_server` up to its port field consumed the head of a
   * block, with the name and port word they returned.
   */
  lemma HeadSound(s: string, name: Parsed<string>, port: Parsed<string>)
    requires Tag("server", s).Some?
    requires Tag("{", SkipSpace(Tag("server", s).value)).Some?
    requires name == ParseField("servername", SkipSpace(Tag("{", SkipSpace(Tag("server", s).value)).value))
    requires name.Done?
    requires port == ParseField("port", SkipSpace(name.rest)) && port.Done?
    ensures exists b ::
      HeadWellFormed(b) && b.name == name.value && b.portText == port.value && s == HeadText(b) + port.rest
  {
    var s1 := Tag("server", s).value;
    var u1 := SkipSpace(s1);
    var s2 := Tag("{", u1).value;
    var u2 := SkipSpace(s2);
    var u3 := SkipSpace(name.rest);
    SkipSpaceGap(s1);
    var g0 :| AllSpace(g0) && s1 == g0 + u1;
    SkipSpaceGap(s2);
    var g1 :| AllSpace(g1) && s2 == g1 + u2;
    ParseFieldSound("servername", u2);
    var g2 :| AllSpace(g2) && u2 == FieldText("servername", g2, name.value) + name.rest;
    SkipSpaceGap(name.rest);
    var g3 :| AllSpace(g3) && name.rest == g3 + u3;
    ParseFieldSound("port", u3);
    var g4 :| AllSpace(g4) && u3 == FieldText("port", g4, port.value) + port.rest;
    AssembleHead(s, s1, u1, s2, u2, name.rest, u3, g0, g1, g2, g3, g4, name.value, port.value, port.rest);
  }

  /**
   * Soundness: `parse_server` succeeds only on a well-formed block followed by
   * the remainder it returns, and the entry is the one that block denotes.
   * Any other order of fields, a missing field or a missing `}` fails.
   */
  lemma ParseServerSound(s: string)
    requires ParseServer(s).Done?
    ensures exists b :: WellFormed(b) && s == Render(b) + ParseServer(s).rest && ParseServer(s).value == Meaning(b)
  {
    var name := ParseField("servername", SkipSpace(Tag("{", SkipSpace(Tag("server", s).value)).value));
    var port := ParseField("port", SkipSpace(name.rest));
    var u5 := SkipSpace(port.rest);
    var upstream := ParseField("proxy_pass", u5);
    var u7 := SkipSpace(upstream.rest);
    var rest := Tag("}", u7).value;
    assert ParseServer(s) == Done(ServerConfig(name.value, ParseU16(port.value).value, upstream.value), rest);
    HeadSound(s, name, port);
    var h :| HeadWellFormed(h) && h.name == name.value && h.portText == port.value && s == HeadText(h) + port.rest;
    SkipSpaceGap(port.rest);
    var g5 :| AllSpace(g5) && port.rest == g5 + u5;
    ParseFieldSound("proxy_pass", u5);
    var g6 :| AllSpace(g6) && u5 == FieldText("proxy_pass", g6, upstream.value) + upstream.rest;
    SkipSpaceGap(upstream.rest);
    var g7 :| AllSpace(g7) && upstream.rest == g7 + u7;
    TailSound(h, upstream.value, g5, g6, g7, s, port.rest, rest);
  }

  /** Completing a well-formed head with the text after the port field. */
  lemma TailSound(h: BlockText, upstream: string, g5: string, g6: string, g7: string,
                  s: string, afterPort: string, rest: string)
    requires HeadWellFormed(h) && ParseU16(h.portText).Some? && IsWord(upstream)
    requires AllSpace(g5) && AllSpace(g6) && AllSpace(g7)
    requires s == HeadText(h) + afterPort
    requires afterPort == g5 + (FieldText("proxy_pass", g6, upstream) + (g7 + ("}" + rest)))
    ensures exists b ::
      WellFormed(b) && s == Render(b) + rest && b.name == h.name && b.portText == h.portText && b.upstream == upstream
  {
    var gaps := [h.gaps[0], h.gaps[1], h.gaps[2], h.gaps[3], h.gaps[4], g5, g6, g7];
    assert h.gaps[0] in h.gaps && h.gaps[1] in h.gaps && h.gaps[2] in h.gaps;
    assert h.gaps[3] in h.gaps && h.gaps[4] in h.gaps;
    GapsSpace(h.gaps[0], h.gaps[1], h.gaps[2], h.gaps[3], h.gaps[4], g5, g6, g7);
    var b := BlockText(h.name, h.portText, upstream, gaps);
    assert HeadText(b) == HeadText(h);
    RenderSplit(b, rest);
    assert WellFormed(b) && s == Render(b) + rest;
  }

  /**
   * `parse_server` aborts only after reading `server {`, a `servername`
   * field and a `port` field whose word is not a `u16`.
   */
  lemma ParseServerPanicSound(s: string)
    requires ParseServer(s).Panic?
    ensures exists b :: HeadWellFormed(b) && ParseU16(b.portText).None? && HeadText(b) <= s
  {
    var name := ParseField("servername", SkipSpace(Tag("{", SkipSpace(Tag("server", s).value)).value));
    var port := ParseField("port", SkipSpace(name.rest));
    assert ParseU16(port.value).None?;
    HeadSound(s, name, port);
  }

  // Printing a configuration, and what `parse_config` makes of it.

  /** An entry the configuration language can express: its name and upstream are words. */
  predicate Printable(c: ServerConfig)
  {
    IsWord(c.servername) && IsWord(c.proxyPass)
  }

  /** The block the configuration file shows for an entry, laid out as in `config.conf`. */
  function BlockOf(c: ServerConfig): (b: BlockText)
    requires Printable(c)
    ensures WellFormed(b) && Meaning(b) == c
  {
    ParseU16ToDecimal(c.port);
    var b := BlockText(c.servername, ToDecimal(c.port), c.proxyPass,
                       [" ", "\n    ", " ", "\n    ", " ", "\n    ", " ", "\n"]);
    GapsSpace(" ", "\n    ", " ", "\n    ", " ", "\n    ", " ", "\n");
    b
  }

  /** One entry's block and the line break after it. */
  function PrintBlock(c: ServerConfig): (t: string)
    requires Printable(c)
    ensures t != [] && t[0] == 's'
  {
    RenderStart(BlockOf(c), "\n");
    Render(BlockOf(c)) + "\n"
  }

  /** The configuration text for a list of entries: their blocks, one after another. */
  function PrintConfig(cs: seq<ServerConfig>): string
    requires forall c :: c in cs ==> Printable(c)
  {
    if cs == [] then [] else PrintBlock(cs[0]) + PrintConfig(cs[1..])
  }

  lemma RenderStart(b: BlockText, x: string)
    requires |b.gaps| == 8
    ensures (Render(b) + x)[0] == 's'
  {
  }

  lemma SkipSpaceNone(s: string)
    requires s == [] || !IsSpace(s[0])
    ensures SkipSpace(s) == s
  {
  }

  /** The entries `cs` in front of what a parse returned; an abort stays an abort. */
  function Prepend(cs: seq<ServerConfig>, r: Parsed<seq<ServerConfig>>): Parsed<seq<ServerConfig>>
  {
    match r
    case Done(more, rest) => Done(cs + more, rest)
    case Fail => Fail
    case Panic => Panic
  }

  lemma PrependPrepend(c: seq<ServerConfig>, cs: seq<ServerConfig>, r: Parsed<seq<ServerConfig>>)
    ensures Prepend(c, Prepend(cs, r)) == Prepend(c + cs, r)
  {
    if r.Done? {
      assert c + (cs + r.value) == (c + cs) + r.value;
    }
  }

  lemma PrependChain(a: Parsed<seq<ServerConfig>>, b: Parsed<seq<ServerConfig>>, t: Parsed<seq<ServerConfig>>,
                     cs: seq<ServerConfig>)
    requires cs != []
    requires a == Prepend([cs[0]], b) && b == Prepend(cs[1..], t)
    ensures a == Prepend(cs, t)
  {
    PrependPrepend([cs[0]], cs[1..], t);
    assert [cs[0]] + cs[1..] == cs;
  }

  lemma PrependNothing(r: Parsed<seq<ServerConfig>>)
    ensures Prepend([], r) == r
  {
    if r.Done? {
      assert [] + r.value == r.value;
    }
  }

  /** One round of `many0`: a block parsed after the leading whitespace, then the rest. */
  lemma ParseConfigStep(s: string, c: ServerConfig, after: string)
    requires ParseServer(SkipSpace(s)) == Done(c, after)
    ensures ParseConfig(s) == Prepend([c], ParseConfig(SkipSpace(after)))
  {
  }

  /** One well-formed block and the whitespace after it, then `parse_config` goes on with what follows. */
  lemma ParseConfigBlock(b: BlockText, gap: string, y: string)
    requires WellFormed(b) && AllSpace(gap)
    requires y == [] || !IsSpace(y[0])
    ensures ParseConfig(Render(b) + (gap + y)) == Prepend([Meaning(b)], ParseConfig(y))
  {
    var s := Render(b) + (gap + y);
    RenderStart(b, gap + y);
    SkipSpaceNone(s);
    ParseServerRender(b, gap + y);
    ParseConfigStep(s, Meaning(b), gap + y);
    SkipSpaceConcat(gap, y);
  }

  /** The text after the first printed block starts with no whitespace. */
  lemma PrintConfigStart(cs: seq<ServerConfig>, tail: string)
    requires forall c :: c in cs ==> Printable(c)
    requires tail == [] || !IsSpace(tail[0])
    ensures var x := PrintConfig(cs) + tail; x == [] || !IsSpace(x[0])
  {
    if cs != [] {
      PrintConfigCons(cs, tail);
      RenderStart(BlockOf(cs[0]), "\n" + (PrintConfig(cs[1..]) + tail));
    } else {
      assert PrintConfig(cs) + tail == tail;
    }
  }

  lemma PrintConfigCons(cs: seq<ServerConfig>, tail: string)
    requires forall c :: c in cs ==> Printable(c)
    requires cs != []
    ensures forall c :: c in cs[1..] ==> Printable(c)
    ensures PrintConfig(cs) + tail == Render(BlockOf(cs[0])) + ("\n" + (PrintConfig(cs[1..]) + tail))
  {
    assert forall c :: c in cs[1..] ==> c in cs;
    assert PrintConfig(cs) == PrintBlock(cs[0]) + PrintConfig(cs[1..]);
    Assoc(PrintBlock(cs[0]), PrintConfig(cs[1..]), tail);
    Assoc(Render(BlockOf(cs[0])), "\n", PrintConfig(cs[1..]) + tail);
  }

  /** The first printed block, then `parse_config` goes on with the rest of the text. */
  lemma ParseConfigCons(cs: seq<ServerConfig>, tail: string)
    requires forall c :: c in cs ==> Printable(c)
    requires cs != []
    requires tail == [] || !IsSpace(tail[0])
    ensures forall c :: c in cs[1..] ==> Printable(c)
    ensures ParseConfig(PrintConfig(cs) + tail) == Prepend([cs[0]], ParseConfig(PrintConfig(cs[1..]) + tail))
  {
    PrintConfigCons(cs, tail);
    PrintConfigStart(cs[1..], tail);
    ParseConfigBlock(BlockOf(cs[0]), "\n", PrintConfig(cs[1..]) + tail);
  }

  /**
   * `parse_config` reads printed blocks one by one, in order, and then goes on
   * with whatever follows them exactly as it would on its own: it stops there
   * with the blocks so far, or aborts and loses them.
   */
  lemma {:induction false} ParseConfigAfterPrinted(cs: seq<ServerConfig>, tail: string)
    requires forall c :: c in cs ==> Printable(c)
    requires tail == [] || !IsSpace(tail[0])
    ensures ParseConfig(PrintConfig(cs) + tail) == Prepend(cs, ParseConfig(tail))
    decreases |cs|
  {
    if cs == [] {
      assert PrintConfig(cs) + tail == tail;
      PrependNothing(ParseConfig(tail));
    } else {
      ParseConfigCons(cs, tail);
      ParseConfigAfterPrinted(cs[1..], tail);
      PrependChain(ParseConfig(PrintConfig(cs) + tail), ParseConfig(PrintConfig(cs[1..]) + tail),
                   ParseConfig(tail), cs);
    }
  }

  /** Round trip: printing entries and parsing the text gives them back and consumes it all. */
  lemma ParseConfigPrinted(cs: seq<ServerConfig>)
    requires forall c :: c in cs ==> Printable(c)
    ensures ParseConfig(PrintConfig(cs)) == Done(cs, [])
  {
    ParseConfigAfterPrinted(cs, []);
    assert PrintConfig(cs) + [] == PrintConfig(cs);
    assert cs + [] == cs;
  }

  // What `parse_config` returns on any text.

  predicate EndsWith(s: string, r: string)
  {
    |r| <= |s| && s[|s| - |r|..] == r
  }

  lemma EndsWithConcat(p: string, r: string)
    ensures EndsWith(p + r, r)
  {
    assert (p + r)[|p|..] == r;
  }

  lemma EndsWithTrans(a: string, b: string, c: string)
    requires EndsWith(a, b) && EndsWith(b, c)
    ensures EndsWith(a, c)
  {
    assert a[|a| - |c|..] == a[|a| - |b|..][|b| - |c|..];
  }

  lemma SkipSpaceEnds(s: string)
    ensures EndsWith(s, SkipSpace(s))
  {
    SkipSpaceSplit(s);
    EndsWithConcat(s[..|s| - |SkipSpace(s)|], SkipSpace(s));
  }

  /** What `parse_server` leaves is a proper suffix of its input. */
  lemma ParseServerRest(s: string)
    requires ParseServer(s).Done?
    ensures |ParseServer(s).rest| < |s| && EndsWith(s, ParseServer(s).rest)
  {
    ParseServerSound(s);
    var b :| WellFormed(b) && s == Render(b) + ParseServer(s).rest && ParseServer(s).value == Meaning(b);
    EndsWithConcat(Render(b), ParseServer(s).rest);
  }

  /** What `parse_config` leaves is a suffix of its input. */
  lemma {:induction false} ParseConfigRest(s: string)
    requires ParseConfig(s).Done?
    ensures EndsWith(s, ParseConfig(s).rest)
    decreases |s|
  {
    var t := SkipSpace(s);
    match ParseServer(t)
    case Fail =>
      assert ParseConfig(s).rest == s;
      EndsWithConcat([], s);
    case Done(c, after) =>
      var u := SkipSpace(after);
      ParseConfigRest(u);
      assert ParseConfig(s).rest == ParseConfig(u).rest;
      SkipSpaceEnds(s);
      ParseServerRest(t);
      SkipSpaceEnds(after);
      EndsWithTrans(s, t, after);
      EndsWithTrans(s, after, u);
      EndsWithTrans(s, u, ParseConfig(s).rest);
  }

  /** A parsed block as written, with the whitespace after it. */
  datatype Spaced = Spaced(block: BlockText, after: string)

  predicate SpacedWellFormed(bs: seq<Spaced>)
  {
    forall i :: 0 <= i < |bs| ==> WellFormed(bs[i].block) && AllSpace(bs[i].after)
  }

  function BlocksText(bs: seq<Spaced>): string
    requires SpacedWellFormed(bs)
  {
    if bs == [] then [] else Render(bs[0].block) + bs[0].after + BlocksText(bs[1..])
  }

  function Entries(bs: seq<Spaced>): (cs: seq<ServerConfig>)
    requires SpacedWellFormed(bs)
    ensures |cs| == |bs|
  {
    if bs == [] then [] else [Meaning(bs[0].block)] + Entries(bs[1..])
  }

  lemma RegroupSpaced(g: string, r: string, g2: string, lead: string, x: string, rest: string)
    ensures g + (r + (g2 + (lead + x + rest))) == g + (r + (g2 + lead) + x) + rest
  {
  }

  /** Adding one block in front of a parsed run of blocks. */
  lemma ConsSpaced(b: BlockText, after: string, bs: seq<Spaced>)
    requires WellFormed(b) && AllSpace(after) && SpacedWellFormed(bs)
    ensures SpacedWellFormed([Spaced(b, after)] + bs)
    ensures BlocksText([Spaced(b, after)] + bs) == Render(b) + after + BlocksText(bs)
    ensures Entries([Spaced(b, after)] + bs) == [Meaning(b)] + Entries(bs)
  {
    assert ([Spaced(b, after)] + bs)[1..] == bs;
  }

  /** One parsed block with the whitespace around it, in front of a parsed run. */
  lemma SoundStep(s: string, g: string, b: BlockText, g2: string, u: string,
                  lead: string, bs: seq<Spaced>, rest: string)
    requires AllSpace(g) && WellFormed(b) && AllSpace(g2) && AllSpace(lead) && SpacedWellFormed(bs)
    requires s == g + (Render(b) + (g2 + u)) && u == lead + BlocksText(bs) + rest
    ensures exists lead', bs' ::
      AllSpace(lead') && SpacedWellFormed(bs')
      && s == lead' + BlocksText(bs') + rest && Entries(bs') == [Meaning(b)] + Entries(bs)
  {
    assert AllSpace(g2 + lead);
    ConsSpaced(b, g2 + lead, bs);
    var bs' := [Spaced(b, g2 + lead)] + bs;
    RegroupSpaced(g, Render(b), g2, lead, BlocksText(bs), rest);
    assert s == g + BlocksText(bs') + rest;
  }

  /**
   * Soundness of `parse_config`: the text it consumed is whitespace, then the
   * blocks whose entries it returns, in source order, each followed by
   * whitespace; what it leaves follows them.
   */
  lemma {:induction false} ParseConfigSound(s: string, cs: seq<ServerConfig>, rest: string)
    requires ParseConfig(s) == Done(cs, rest)
    ensures exists lead, bs ::
      AllSpace(lead) && SpacedWellFormed(bs)
      && s == lead + BlocksText(bs) + rest && Entries(bs) == cs
    decreases |s|
  {
    var t := SkipSpace(s);
    match ParseServer(t)
    case Fail =>
      assert cs == [] && rest == s;
      assert s == [] + BlocksText([]) + s;
      assert AllSpace([]) && SpacedWellFormed([]) && Entries([]) == [];
    case Done(c, after) =>
      var u := SkipSpace(after);
      var more := ParseConfig(u);
      assert more.Done? && cs == [c] + more.value && rest == more.rest;
      SkipSpaceGap(s);
      var g :| AllSpace(g) && s == g + t;
      ParseServerSound(t);
      var b :| WellFormed(b) && t == Render(b) + after && c == Meaning(b);
      SkipSpaceGap(after);
      var g2 :| AllSpace(g2) && after == g2 + u;
      ParseConfigSound(u, more.value, more.rest);
      var lead, bs :| AllSpace(lead) && SpacedWellFormed(bs)
        && u == lead + BlocksText(bs) + more.rest && Entries(bs) == more.value;
      SoundStep(s, g, b, g2, u, lead, bs, rest);
  }

  // `parse_config` on any run of well-formed blocks.

  lemma BlocksTextCons(bs: seq<Spaced>, tail: string)
    requires SpacedWellFormed(bs) && bs != []
    ensures SpacedWellFormed(bs[1..])
    ensures BlocksText(bs) + tail == Render(bs[0].block) + (bs[0].after + (BlocksText(bs[1..]) + tail))
    ensures Entries(bs)[0] == Meaning(bs[0].block) && Entries(bs)[1..] == Entries(bs[1..])
  {
    assert SpacedWellFormed(bs[1..]) by {
      forall i | 0 <= i < |bs[1..]|
        ensures WellFormed(bs[1..][i].block) && AllSpace(bs[1..][i].after)
      {
        assert bs[1..][i] == bs[i + 1];
      }
    }
    Assoc(Render(bs[0].block) + bs[0].after, BlocksText(bs[1..]), tail);
    Assoc(Render(bs[0].block), bs[0].after, BlocksText(bs[1..]) + tail);
  }

  /** A run of blocks starts with the `s` of `server`, so nothing is skipped before it. */
  lemma BlocksTextStart(bs: seq<Spaced>, tail: string)
    requires SpacedWellFormed(bs)
    requires tail == [] || !IsSpace(tail[0])
    ensures var x := BlocksText(bs) + tail; x == [] || !IsSpace(x[0])
  {
    if bs != [] {
      BlocksTextCons(bs, tail);
      RenderStart(bs[0].block, bs[0].after + (BlocksText(bs[1..]) + tail));
    } else {
      assert BlocksText(bs) + tail == tail;
    }
  }

  /**
   * Completeness of `parse_config`: a run of well-formed blocks, with any
   * whitespace after each, is read block by block, in order, and then the
   * parse goes on with whatever follows exactly as it would on its own.
   */
  lemma {:induction false} ParseConfigAfterBlocks(bs: seq<Spaced>, tail: string)
    requires SpacedWellFormed(bs)
    requires tail == [] || !IsSpace(tail[0])
    ensures ParseConfig(BlocksText(bs) + tail) == Prepend(Entries(bs), ParseConfig(tail))
    decreases |bs|
  {
    if bs == [] {
      assert BlocksText(bs) + tail == tail;
      PrependNothing(ParseConfig(tail));
    } else {
      BlocksTextCons(bs, tail);
      BlocksTextStart(bs[1..], tail);
      ParseConfigBlock(bs[0].block, bs[0].after, BlocksText(bs[1..]) + tail);
      ParseConfigAfterBlocks(bs[1..], tail);
      PrependChain(ParseConfig(BlocksText(bs) + tail), ParseConfig(BlocksText(bs[1..]) + tail),
                   ParseConfig(tail), Entries(bs));
    }
  }

  /** A non-empty run of blocks parses as a block, whatever follows it. */
  lemma BlocksTextParses(bs: seq<Spaced>, tail: string)
    requires SpacedWellFormed(bs) && bs != []
    ensures ParseServer(BlocksText(bs) + tail).Done?
  {
    BlocksTextCons(bs, tail);
    ParseServerRender(bs[0].block, bs[0].after + (BlocksText(bs[1..]) + tail));
  }

  /** Whitespace in front of a block changes nothing. */
  lemma ParseConfigLead(lead: string, x: string)
    requires AllSpace(lead)
    requires x == [] || !IsSpace(x[0])
    requires ParseServer(x).Done?
    ensures ParseConfig(lead + x) == ParseConfig(x)
  {
    SkipSpaceConcat(lead, x);
    SkipSpaceNone(x);
  }

  /** Leading whitespace, then at least one well-formed block: the same as without it. */
  lemma ParseConfigAfterLead(lead: string, bs: seq<Spaced>, tail: string)
    requires AllSpace(lead) && SpacedWellFormed(bs) && bs != []
    requires tail == [] || !IsSpace(tail[0])
    ensures ParseConfig(lead + BlocksText(bs) + tail) == Prepend(Entries(bs), ParseConfig(tail))
  {
    BlocksTextStart(bs, tail);
    BlocksTextParses(bs, tail);
    Assoc(lead, BlocksText(bs), tail);
    ParseConfigLead(lead, BlocksText(bs) + tail);
    ParseConfigAfterBlocks(bs, tail);
  }

  /** Whitespace, then text where no block starts: `parse_config` returns nothing and consumes nothing. */
  lemma ParseConfigNoBlock(lead: string, bad: string)
    requires AllSpace(lead)
    requires bad == [] || !IsSpace(bad[0])
    requires ParseServer(bad).Fail?
    ensures ParseConfig(lead + bad) == Done([], lead + bad)
  {
    SkipSpaceConcat(lead, bad);
    SkipSpaceNone(bad);
  }

  /** A block that aborts starts with the `s` of `server`. */
  lemma BadPortStart(bad: string)
    requires ParseServer(bad).Panic?
    ensures bad != [] && !IsSpace(bad[0])
  {
    assert bad[0] == 's';
  }

  /** Whitespace, then a block with a bad port: `parse_config` aborts. */
  lemma ParseConfigBadPort(lead: string, bad: string)
    requires AllSpace(lead)
    requires ParseServer(bad).Panic?
    ensures ParseConfig(lead + bad) == Panic
  {
    BadPortStart(bad);
    SkipSpaceConcat(lead, bad);
    SkipSpaceNone(bad);
  }

  /** A block with a bad port at the very start: `parse_config` aborts. */
  lemma ParseConfigPanicHere(bad: string)
    requires ParseServer(bad).Panic?
    ensures ParseConfig(bad) == Panic
  {
    BadPortStart(bad);
    SkipSpaceNone(bad);
  }

  lemma PrependPanic(cs: seq<ServerConfig>, r: Parsed<seq<ServerConfig>>)
    requires r == Panic
    ensures Prepend(cs, r) == Panic
  {
  }

  lemma PrependEnd(cs: seq<ServerConfig>, r: Parsed<seq<ServerConfig>>, bad: string)
    requires r == Done([], bad)
    ensures Prepend(cs, r) == Done(cs, bad)
  {
    assert cs + [] == cs;
  }

  /**
   * The blocks before the first one that fails to parse are kept, in order,
   * and that block and everything after it are left unconsumed; with no
   * block before it, the leading whitespace is left unconsumed too.
   */
  lemma ParseConfigStopsAtBadBlock(lead: string, bs: seq<Spaced>, bad: string)
    requires AllSpace(lead) && SpacedWellFormed(bs)
    requires bad == [] || !IsSpace(bad[0])
    requires ParseServer(bad).Fail?
    ensures ParseConfig(lead + BlocksText(bs) + bad) == Done(Entries(bs), if bs == [] then lead + bad else bad)
  {
    if bs == [] {
      assert lead + BlocksText(bs) + bad == lead + bad;
      ParseConfigNoBlock(lead, bad);
    } else {
      ParseConfigAfterLead(lead, bs, bad);
      ParseConfigNoBlock([], bad);
      assert [] + bad == bad;
      PrependEnd(Entries(bs), ParseConfig(bad), bad);
    }
  }

  /** A block with a bad port aborts the whole parse, whatever well-formed blocks come before it. */
  lemma ParseConfigPanicsAtBadPort(lead: string, bs: seq<Spaced>, bad: string)
    requires AllSpace(lead) && SpacedWellFormed(bs)
    requires ParseServer(bad).Panic?
    ensures ParseConfig(lead + BlocksText(bs) + bad) == Panic
  {
    if bs == [] {
      assert lead + BlocksText(bs) == lead;
      ParseConfigBadPort(lead + BlocksText(bs), bad);
    } else {
      BadPortStart(bad);
      ParseConfigAfterLead(lead, bs, bad);
      ParseConfigPanicHere(bad);
      PrependPanic(Entries(bs), ParseConfig(bad));
    }
  }
}
