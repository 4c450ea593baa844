/** Every way to write an endpoint, and that parsing accepts exactly these. */
module EndpointForms {
  import opened Text
  import opened Decimal
  import opened Endpoints

  /** A port of the accepted range, in digits. */
  predicate PortText(port: string) {
    port != "" && AllDigits(port) && DigitsValue(port) < 65536
  }

  function Count(s: string, c: char): nat {
    if s == "" then 0 else (if s[0] == c then 1 else 0) + Count(s[1..], c)
  }

  /** White space around the parts of an endpoint. */
  datatype Gaps = Gaps(lead: string, inner: string, behind: string, before: string, tail: string)

  predicate AllBlank(g: Gaps) {
    Blank(g.lead) && Blank(g.inner) && Blank(g.behind) && Blank(g.before) && Blank(g.tail)
  }

  /** A host alone: no colon, or several as in a bare IPv6 address. */
  predicate Alone(raw: string, g: Gaps, host: string) {
    raw == g.lead + host + g.tail && host != "" && Trimmed(host) && host[0] != '[' && Count(host, ':') != 1
  }

  predicate HostPort(raw: string, g: Gaps, host: string, port: string) {
    && raw == g.lead + host + g.behind + ":" + g.before + port + g.tail
    && host != "" && Trimmed(host) && host[0] != '[' && ':' !in host && PortText(port)
  }

  predicate Bracketed(raw: string, g: Gaps, host: string) {
    && raw == g.lead + "[" + g.inner + host + g.behind + "]" + g.tail
    && host != "" && Trimmed(host) && ']' !in host
  }

  predicate BracketedPort(raw: string, g: Gaps, gap: string, host: string, port: string) {
    && Blank(gap) && raw == g.lead + "[" + g.inner + host + g.behind + "]" + gap + ":" + g.before + port + g.tail
    && host != "" && Trimmed(host) && ']' !in host && PortText(port)
  }

  /** The text spells the endpoint; a port that is not given is the default one. */
  ghost predicate Spells(raw: string, defaultPort: string, e: Endpoint) {
    exists g, gap :: Form(raw, defaultPort, e, g, gap)
  }

  predicate Form(raw: string, defaultPort: string, e: Endpoint, g: Gaps, gap: string) {
    AllBlank(g) &&
      (|| (e.port == defaultPort && (Alone(raw, g, e.host) || Bracketed(raw, g, e.host)))
       || HostPort(raw, g, e.host, e.port)
       || BracketedPort(raw, g, gap, e.host, e.port))
  }

  // ---- what is spelled is read ----

  lemma PortIs(port: string)
    ensures PortText(port) <==> ValidPort(port)
  {
  }

  lemma {:induction false} CountNone(s: string, c: char)
    ensures Count(s, c) == 0 <==> c !in s
    decreases |s|
  {
    if s != "" {
      CountNone(s[1..], c);
      assert s == [s[0]] + s[1..];
    }
  }

  lemma {:induction false} CountConcat(a: string, b: string, c: char)
    ensures Count(a + b, c) == Count(a, c) + Count(b, c)
    decreases |a|
  {
    if a == "" {
      assert a + b == b;
    } else {
      assert (a + b)[1..] == a[1..] + b && (a + b)[0] == a[0];
      CountConcat(a[1..], b, c);
    }
  }

  /** The first colon, and whether another one follows. */
  lemma OneColon(value: string)
    ensures IndexOf(value, ':').None? <==> Count(value, ':') == 0
    ensures IndexOf(value, ':').Some? ==>
              (':' in value[IndexOf(value, ':').value + 1..] <==> Count(value, ':') > 1)
  {
    CountNone(value, ':');
    if IndexOf(value, ':').Some? {
      var k := IndexOf(value, ':').value;
      ColonSplits(value, k);
    }
  }

  lemma ColonSplits(value: string, k: nat)
    requires k < |value| && value[k] == ':' && forall i :: 0 <= i < k ==> value[i] != ':'
    ensures Count(value, ':') == 1 + Count(value[k + 1..], ':') && Count(value, ':') > 0
    ensures ':' in value[k + 1..] <==> Count(value, ':') > 1
  {
    var front, back := value[..k], value[k + 1..];
    assert value == front + ([':'] + back);
    CountNone(front, ':');
    CountNone(back, ':');
    CountConcat(front, [':'] + back, ':');
    ColonFirst(back);
  }

  lemma ColonFirst(back: string)
    ensures Count([':'] + back, ':') == 1 + Count(back, ':')
  {
    assert ([':'] + back)[1..] == back;
  }

  lemma TrimmedMiddle(lead: string, middle: string, tail: string)
    requires Blank(lead) && Blank(tail) && Trimmed(middle)
    ensures TrimSpace(lead + middle + tail) == middle
  {
    TrimUnique(lead, middle, tail);
  }

  lemma AloneIsRead(raw: string, defaultPort: string, g: Gaps, host: string)
    requires AllBlank(g) && Alone(raw, g, host)
    ensures ParsePart(raw, defaultPort) == Success(Endpoint(host, defaultPort))
  {
    TrimmedMiddle(g.lead, host, g.tail);
    OneColon(host);
    hide TrimSpace, Count, IndexOf, ValidatePort;
  }

  /** One colon in a text without bracket. */
  lemma PlainParts(value: string, defaultPort: string, before: string, behind: string)
    requires value == before + ([':'] + behind) && ':' !in before && ':' !in behind && value[0] != '['
    ensures ParseEndpoint(value, defaultPort)
         == if TrimSpace(before) == "" then Failure(EmptyHost) else ValidatePort(TrimSpace(before), TrimSpace(behind))
  {
    assert forall i :: 0 <= i < |before| ==> value[i] == before[i];
    FirstIndex(value, ':', |before|);
    assert value[..|before|] == before && value[|before| + 1..] == behind;
    hide TrimSpace, IndexOf, ValidatePort;
  }

  /** A bracket and what follows it. */
  lemma BracketParts(value: string, defaultPort: string, inner: string, rest: string)
    requires value == ['['] + inner + ([']'] + rest) && ']' !in inner
    ensures var host, suffix := TrimSpace(inner), TrimSpace(rest);
            ParseEndpoint(value, defaultPort)
            == if host == "" then Failure(EmptyHost)
               else if suffix == "" then Success(Endpoint(host, defaultPort))
               else if suffix[0] != ':' then Failure(TrailingData)
               else ValidatePort(host, TrimSpace(suffix[1..]))
  {
    var end := |inner| + 1;
    assert value[0] == '[' && value[end] == ']';
    assert forall i :: 1 <= i < end ==> value[i] == inner[i - 1];
    FirstIndex(value, ']', end);
    assert value[1..end] == inner && value[end + 1..] == rest;
    hide TrimSpace, IndexOf, ValidatePort;
  }

  /** A trimmed text between blanks is a part of its own. */
  lemma PartIs(raw: string, lead: string, value: string, tail: string, defaultPort: string)
    requires raw == lead + value + tail && Blank(lead) && Blank(tail) && value != "" && Trimmed(value)
    ensures ParsePart(raw, defaultPort) == ParseEndpoint(value, defaultPort)
  {
    TrimmedMiddle(lead, value, tail);
    hide ParseEndpoint, TrimSpace;
  }

  lemma HostPortIsRead(raw: string, defaultPort: string, g: Gaps, host: string, port: string)
    requires AllBlank(g) && HostPort(raw, g, host, port)
    ensures ParsePart(raw, defaultPort) == Success(Endpoint(host, port))
  {
    var before, behind := host + g.behind, g.before + port;
    var value := before + ([':'] + behind);
    PortIs(port);
    DigitsArePlain(port);
    BlankHasNoColon(g.behind);
    BlankHasNoColon(g.before);
    assert raw == g.lead + value + g.tail;
    assert value[0] == host[0] && value[|value| - 1] == port[|port| - 1];
    hide ParsePart, ParseEndpoint, TrimSpace, ValidPort, Blank;
    PartIs(raw, g.lead, value, g.tail, defaultPort);
    PlainParts(value, defaultPort, before, behind);
    Behind(host, g.behind);
    InFront(g.before, port);
  }

  lemma Behind(middle: string, tail: string)
    requires Blank(tail) && Trimmed(middle)
    ensures TrimSpace(middle + tail) == middle
  {
    TrimmedMiddle("", middle, tail);
    assert "" + middle + tail == middle + tail;
  }

  lemma InFront(lead: string, middle: string)
    requires Blank(lead) && Trimmed(middle)
    ensures TrimSpace(lead + middle) == middle
  {
    TrimmedMiddle(lead, middle, "");
    assert lead + middle + "" == lead + middle;
  }

  lemma BracketedIsRead(raw: string, defaultPort: string, g: Gaps, host: string)
    requires AllBlank(g) && Bracketed(raw, g, host)
    ensures ParsePart(raw, defaultPort) == Success(Endpoint(host, defaultPort))
  {
    var inner := g.inner + host + g.behind;
    var value := ['['] + inner + ([']'] + "");
    BlankHasNoColon(g.inner);
    BlankHasNoColon(g.behind);
    assert raw == g.lead + value + g.tail;
    assert value[0] == '[' && value[|value| - 1] == ']' && !IsSpace('[') && !IsSpace(']');
    assert TrimSpace("") == "";
    hide ParsePart, ParseEndpoint, TrimSpace, Blank;
    PartIs(raw, g.lead, value, g.tail, defaultPort);
    BracketParts(value, defaultPort, inner, "");
    TrimmedMiddle(g.inner, host, g.behind);
  }

  lemma BracketedPortIsRead(raw: string, defaultPort: string, g: Gaps, gap: string, host: string, port: string)
    requires AllBlank(g) && BracketedPort(raw, g, gap, host, port)
    ensures ParsePart(raw, defaultPort) == Success(Endpoint(host, port))
  {
    var inner, suffix := g.inner + host + g.behind, [':'] + (g.before + port);
    var value := ['['] + inner + ([']'] + (gap + suffix));
    PortIs(port);
    DigitsArePlain(port);
    BlankHasNoColon(g.inner);
    BlankHasNoColon(g.behind);
    assert raw == g.lead + value + g.tail by { BracketText(raw, g, gap, host, port); }
    assert value[0] == '[' && !IsSpace('[') && !IsSpace(':');
    assert value[|value| - 1] == port[|port| - 1] && suffix[|suffix| - 1] == port[|port| - 1];
    assert suffix[1..] == g.before + port;
    hide ParsePart, ParseEndpoint, TrimSpace, ValidPort, Blank;
    PartIs(raw, g.lead, value, g.tail, defaultPort);
    BracketParts(value, defaultPort, inner, gap + suffix);
    TrimmedMiddle(g.inner, host, g.behind);
    InFront(gap, suffix);
    InFront(g.before, port);
  }

  lemma BracketText(raw: string, g: Gaps, gap: string, host: string, port: string)
    requires BracketedPort(raw, g, gap, host, port)
    ensures raw == g.lead + (['['] + (g.inner + host + g.behind) + ([']'] + (gap + ([':'] + (g.before + port))))) + g.tail
  {
    var a := g.inner + host + g.behind;
    assert raw == g.lead + "[" + a + "]" + gap + ":" + g.before + port + g.tail;
  }

  lemma BlankHasNoColon(blank: string)
    requires Blank(blank)
    ensures ':' !in blank && ']' !in blank && '[' !in blank
  {
  }

  /** Main result: every spelling of an endpoint is read as that endpoint. */
  lemma SpelledIsRead(raw: string, defaultPort: string, e: Endpoint)
    requires Spells(raw, defaultPort, e)
    ensures ParsePart(raw, defaultPort) == Success(e)
  {
    var g, gap :| Form(raw, defaultPort, e, g, gap);
    hide ParsePart, AllBlank, Alone, Bracketed, HostPort, BracketedPort;
    if HostPort(raw, g, e.host, e.port) {
      HostPortIsRead(raw, defaultPort, g, e.host, e.port);
    } else if BracketedPort(raw, g, gap, e.host, e.port) {
      BracketedPortIsRead(raw, defaultPort, g, gap, e.host, e.port);
    } else if Alone(raw, g, e.host) {
      AloneIsRead(raw, defaultPort, g, e.host);
    } else {
      BracketedIsRead(raw, defaultPort, g, e.host);
    }
  }

  // ---- what is read is spelled ----

  lemma BlankConcat(a: string, b: string)
    requires Blank(a) && Blank(b)
    ensures Blank(a + b)
  {
  }

  lemma StartsTrimmed(lead: string, middle: string, tail: string)
    requires Blank(lead) && lead + middle + tail != "" && Trimmed(lead + middle + tail)
    ensures lead == ""
  {
    assert forall i :: 0 <= i < |lead| ==> (lead + middle + tail)[i] == lead[i];
  }

  lemma PlainIsSpelled(value: string, defaultPort: string, e: Endpoint, lead: string, tail: string) returns (g: Gaps)
    requires Blank(lead) && Blank(tail) && value != "" && Trimmed(value) && value[0] != '['
    requires ParseEndpoint(value, defaultPort) == Success(e)
    ensures AllBlank(g)
    ensures (e.port == defaultPort && Alone(lead + value + tail, g, e.host)) || HostPort(lead + value + tail, g, e.host, e.port)
  {
    OneColon(value);
    if Count(value, ':') != 1 {
      g := Gaps(lead, "", "", "", tail);
    } else {
      var k := IndexOf(value, ':').value;
      var before, behind := value[..k], value[k + 1..];
      assert value == before + ([':'] + behind);
      PlainParts(value, defaultPort, before, behind);
      g := HostPortGaps(value, before, behind, e, lead, tail);
    }
  }

  lemma HostPortGaps(value: string, before: string, behind: string, e: Endpoint, lead: string, tail: string) returns (g: Gaps)
    requires Blank(lead) && Blank(tail) && value != "" && Trimmed(value) && value[0] != '['
    requires value == before + ([':'] + behind) && ':' !in before
    requires TrimSpace(before) != "" && ValidatePort(TrimSpace(before), TrimSpace(behind)) == Success(e)
    ensures AllBlank(g) && HostPort(lead + value + tail, g, e.host, e.port)
  {
    PortIs(e.port);
    var h1, h2 := TrimParts(before);
    var p1, p2 := TrimParts(behind);
    hide TrimSpace, PortText, ValidPort;
    HostStarts(value, before, behind, h1, e.host, h2);
    BlankConcat(p2, tail);
    g := Gaps(lead, "", h2, p1, p2 + tail);
    hide Blank;
    HostPortText(lead, e.host, h2, p1, e.port, p2, tail);
  }

  /** A trimmed text starts with its host. */
  lemma HostStarts(value: string, before: string, behind: string, h1: string, host: string, h2: string)
    requires value == before + ([':'] + behind) && Trimmed(value) && before == h1 + host + h2 && Blank(h1) && host != ""
    ensures h1 == "" && value[0] == host[0] && before == host + h2
    ensures ':' !in before ==> ':' !in host
  {
    assert value == h1 + host + (h2 + ([':'] + behind));
    StartsTrimmed(h1, host, h2 + ([':'] + behind));
    assert forall c :: c in host ==> c in before;
  }

  lemma HostPortText(lead: string, host: string, h2: string, p1: string, port: string, p2: string, tail: string)
    ensures lead + (host + h2 + ([':'] + (p1 + port + p2))) + tail == lead + host + h2 + ":" + p1 + port + (p2 + tail)
  {
  }

  lemma ValueSplits(value: string, end: nat)
    requires 0 < end < |value| && value[0] == '[' && value[end] == ']'
    ensures value == ['['] + value[1..end] + ([']'] + value[end + 1..])
  {
  }

  lemma BracketIsSpelled(value: string, defaultPort: string, e: Endpoint, lead: string, tail: string) returns (g: Gaps, gap: string)
    requires Blank(lead) && Blank(tail) && value != "" && value[0] == '['
    requires ParseEndpoint(value, defaultPort) == Success(e)
    ensures AllBlank(g)
    ensures (e.port == defaultPort && Bracketed(lead + value + tail, g, e.host))
         || BracketedPort(lead + value + tail, g, gap, e.host, e.port)
  {
    var end := IndexOf(value, ']').value;
    var inner, rest := value[1..end], value[end + 1..];
    ValueSplits(value, end);
    BracketParts(value, defaultPort, inner, rest);
    var i1, i2 := TrimParts(inner);
    var r1, r2 := TrimParts(rest);
    var suffix := TrimSpace(rest);
    hide ParseEndpoint, IndexOf, TrimSpace, Blank, PortText, ValidPort;
    NotInMiddle(inner, i1, TrimSpace(inner), i2);
    gap := r1;
    if suffix == "" {
      g := BracketAloneGaps(value, inner, rest, e, lead, tail, i1, i2);
    } else {
      PortIs(e.port);
      g := BracketGaps(inner, rest, suffix, e, lead, tail, i1, i2, r1, r2);
      ValueText(lead, inner, rest, tail);
    }
  }

  lemma NotInMiddle(inner: string, i1: string, host: string, i2: string)
    requires inner == i1 + host + i2 && ']' !in inner
    ensures ']' !in host
  {
    assert forall c :: c in host ==> c in inner;
  }

  lemma ValueText(lead: string, inner: string, rest: string, tail: string)
    ensures lead + (['['] + inner + ([']'] + rest)) + tail == lead + "[" + inner + "]" + rest + tail
  {
  }

  lemma BracketAloneGaps(value: string, inner: string, rest: string, e: Endpoint, lead: string, tail: string,
                         i1: string, i2: string) returns (g: Gaps)
    requires value == ['['] + inner + ([']'] + rest) && Blank(lead) && Blank(tail) && Blank(rest) && Blank(i1) && Blank(i2)
    requires inner == i1 + e.host + i2 && e.host != "" && Trimmed(e.host) && ']' !in e.host
    ensures AllBlank(g) && Bracketed(lead + value + tail, g, e.host)
  {
    BlankConcat(rest, tail);
    assert Blank("");
    g := Gaps(lead, i1, i2, "", rest + tail);
    hide Blank;
    assert lead + value + tail == lead + "[" + i1 + e.host + i2 + "]" + (rest + tail);
  }

  lemma BracketGaps(inner: string, rest: string, suffix: string, e: Endpoint, lead: string, tail: string,
                    i1: string, i2: string, r1: string, r2: string) returns (g: Gaps)
    requires Blank(lead) && Blank(tail) && Blank(i1) && Blank(i2) && Blank(r1) && Blank(r2)
    requires inner == i1 + e.host + i2 && rest == r1 + suffix + r2 && suffix != "" && suffix[0] == ':'
    requires e.host != "" && Trimmed(e.host) && ']' !in e.host && e.port == TrimSpace(suffix[1..]) && PortText(e.port)
    ensures AllBlank(g) && BracketedPort(lead + "[" + inner + "]" + rest + tail, g, r1, e.host, e.port)
  {
    var p1, p2 := TrimParts(suffix[1..]);
    BlankConcat(p2, r2);
    BlankConcat(p2 + r2, tail);
    g := Gaps(lead, i1, i2, p1, p2 + r2 + tail);
    hide TrimSpace, Blank, PortText;
    assert suffix == [':'] + suffix[1..];
    BracketGapsText(lead, inner, rest, tail, r1, suffix, r2, i1, e.host, i2, p1, e.port, p2);
  }

  lemma BracketGapsText(lead: string, inner: string, rest: string, tail: string, r1: string, suffix: string, r2: string,
                        i1: string, host: string, i2: string, p1: string, port: string, p2: string)
    requires inner == i1 + host + i2 && rest == r1 + suffix + r2 && suffix == [':'] + (p1 + port + p2)
    ensures lead + "[" + inner + "]" + rest + tail
         == lead + "[" + i1 + host + i2 + "]" + r1 + ":" + p1 + port + (p2 + r2 + tail)
  {
    InnerText(lead, i1, host, i2);
    PortAndTail(r1, p1, port, p2, r2, tail);
    var front := lead + "[" + inner + "]";
    assert front + rest + tail == front + (rest + tail);
    assert front + (r1 + ":" + p1 + port + (p2 + r2 + tail)) == front + r1 + ":" + p1 + port + (p2 + r2 + tail);
  }

  lemma InnerText(lead: string, i1: string, host: string, i2: string)
    ensures lead + "[" + (i1 + host + i2) + "]" == lead + "[" + i1 + host + i2 + "]"
  {
  }

  lemma PortAndTail(r1: string, p1: string, port: string, p2: string, r2: string, tail: string)
    ensures r1 + ([':'] + (p1 + port + p2)) + r2 + tail == r1 + ":" + p1 + port + (p2 + r2 + tail)
  {
  }

  /** Main result: a text is read as an endpoint exactly when it spells it. */
  lemma AcceptsExactlySpelled(raw: string, defaultPort: string, e: Endpoint)
    ensures ParsePart(raw, defaultPort) == Success(e) <==> Spells(raw, defaultPort, e)
  {
    if Spells(raw, defaultPort, e) {
      SpelledIsRead(raw, defaultPort, e);
    }
    if ParsePart(raw, defaultPort) == Success(e) {
      var lead, tail := TrimParts(raw);
      var value := TrimSpace(raw);
      hide ParseEndpoint, AllBlank, Alone, HostPort, Bracketed, BracketedPort, TrimSpace;
      if value[0] == '[' {
        var g, gap := BracketIsSpelled(value, defaultPort, e, lead, tail);
        assert Form(raw, defaultPort, e, g, gap);
      } else {
        var g := PlainIsSpelled(value, defaultPort, e, lead, tail);
        assert Form(raw, defaultPort, e, g, "");
      }
    }
  }

  // ---- the whole list ----

  lemma {:induction false} PartsAreSpelled(parts: seq<string>, defaultPort: string, es: seq<Endpoint>)
    ensures ParseParts(parts, defaultPort) == Success(es)
       <==> |es| == |parts| && forall i :: 0 <= i < |parts| ==> Spells(parts[i], defaultPort, es[i])
    decreases |parts|
  {
    hide Spells, ParsePart;
    if parts != [] && |es| == |parts| {
      var n := |parts| - 1;
      PartsAreSpelled(parts[..n], defaultPort, es[..n]);
      AcceptsExactlySpelled(parts[n], defaultPort, es[n]);
      assert es == es[..n] + [es[n]];
      forall i | 0 <= i < n ensures parts[..n][i] == parts[i] && es[..n][i] == es[i] {
      }
    }
  }

  /**
   Main result for a whole list: no text at all stands for the local socket, and comma-separated parts are
   accepted exactly when each of them is spelled as the endpoint in its place.
   */
  lemma ListIsSpelled(parts: seq<string>, defaultPort: string, es: seq<Endpoint>)
    requires parts != [] && forall part :: part in parts ==> ',' !in part
    ensures var hosts := JoinWith(parts, ',');
            ParseSpec(hosts, defaultPort) == Success(es)
            <==> if hosts == "" then es == [Endpoint("/var/run/postgresql", defaultPort)]
                 else |es| == |parts| && forall i :: 0 <= i < |parts| ==> Spells(parts[i], defaultPort, es[i])
  {
    SplitJoin(parts, ',');
    PartsAreSpelled(parts, defaultPort, es);
    hide Spells, ParseParts;
  }
}
