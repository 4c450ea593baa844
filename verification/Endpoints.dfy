/** PostgreSQL endpoint lists: parsing them, printing them, and the two parallel lists passed on. */
module Endpoints {
  import opened Text
  import opened Decimal

  const SOCKET_DIR := "/var/run/postgresql"

  datatype Endpoint = Endpoint(host: string, port: string)

  datatype EndpointError = EmptyEndpoint | MissingBracket | EmptyHost | TrailingData | EmptyPort | InvalidPort

  /** The length of `s` up to the first `c`. */
  function IndexOf(s: string, c: char): (r: Option<nat>)
    ensures r.Some? ==> r.value < |s| && s[r.value] == c && forall i :: 0 <= i < r.value ==> s[i] != c
    ensures r.None? <==> c !in s
  {
    if s == "" then None
    else if s[0] == c then Some(0)
    else
      match IndexOf(s[1..], c)
      case None => None
      case Some(k) => Some(k + 1)
  }

  /** `strconv.ParseUint(port, 10, 16)` accepts it. */
  predicate ValidPort(port: string) {
    port != "" && AllDigits(port) && DigitsValue(port) <= 0xFFFF
  }

  function ValidatePort(host: string, port: string): Result<Endpoint, EndpointError> {
    if port == "" then Failure(EmptyPort)
    else if ValidPort(port) then Success(Endpoint(host, port))
    else Failure(InvalidPort)
  }

  function ParseEndpoint(value: string, defaultPort: string): Result<Endpoint, EndpointError> {
    if value != "" && value[0] == '[' then
      match IndexOf(value, ']')
      case None => Failure(MissingBracket)
      case Some(end) =>
        assert end > 0;
        var host, suffix := TrimSpace(value[1..end]), TrimSpace(value[end + 1..]);
        if host == "" then Failure(EmptyHost)
        else if suffix == "" then Success(Endpoint(host, defaultPort))
        else if suffix[0] != ':' then Failure(TrailingData)
        else ValidatePort(host, TrimSpace(suffix[1..]))
    else
      match IndexOf(value, ':')
      case None => Success(Endpoint(value, defaultPort))
      case Some(k) =>
        if ':' in value[k + 1..] then Success(Endpoint(value, defaultPort))
        else
          var host := TrimSpace(value[..k]);
          if host == "" then Failure(EmptyHost) else ValidatePort(host, TrimSpace(value[k + 1..]))
  }

  function ParsePart(raw: string, defaultPort: string): Result<Endpoint, EndpointError> {
    if TrimSpace(raw) == "" then Failure(EmptyEndpoint) else ParseEndpoint(TrimSpace(raw), defaultPort)
  }

  function ParseParts(parts: seq<string>, defaultPort: string): (r: Result<seq<Endpoint>, EndpointError>)
    ensures r.Success? ==> |r.value| == |parts|
  {
    if parts == [] then Success([])
    else
      var n := |parts| - 1;
      match ParseParts(parts[..n], defaultPort)
      case Failure(e) => Failure(e)
      case Success(before) =>
        match ParsePart(parts[n], defaultPort)
        case Failure(e) => Failure(e)
        case Success(last) => Success(before + [last])
  }

  function ParseSpec(hosts: string, defaultPort: string): Result<seq<Endpoint>, EndpointError> {
    if hosts == "" then Success([Endpoint(SOCKET_DIR, defaultPort)]) else ParseParts(SplitOn(hosts, ','), defaultPort)
  }

  /** `parseEndpoints`: part by part, given up at the first bad one. */
  method ParseEndpoints(hosts: string, defaultPort: string) returns (r: Result<seq<Endpoint>, EndpointError>)
    ensures r == ParseSpec(hosts, defaultPort)
  {
    if hosts == "" {
      return Success([Endpoint(SOCKET_DIR, defaultPort)]);
    }
    var parts := SplitOn(hosts, ',');
    var endpoints: seq<Endpoint> := [];
    for i := 0 to |parts|
      invariant ParseParts(parts[..i], defaultPort) == Success(endpoints)
    {
      assert parts[..i + 1][..i] == parts[..i];
      var part := ParsePart(parts[i], defaultPort);
      if part.Failure? {
        FailureStays(parts, i + 1, defaultPort);
        return Failure(part.error);
      }
      endpoints := endpoints + [part.value];
    }
    assert parts[..|parts|] == parts;
    return Success(endpoints);
  }

  lemma {:induction false} FailureStays(parts: seq<string>, k: nat, defaultPort: string)
    requires k <= |parts| && ParseParts(parts[..k], defaultPort).Failure?
    ensures ParseParts(parts, defaultPort) == ParseParts(parts[..k], defaultPort)
    decreases |parts|
  {
    if k == |parts| {
      assert parts[..k] == parts;
    } else {
      var n := |parts| - 1;
      assert parts[..n][..k] == parts[..k];
      FailureStays(parts[..n], k, defaultPort);
    }
  }

  // ---- printing ----

  /** Hosts with a colon are bracketed, as in section 3.2.2 of RFC 3986. */
  function Print(e: Endpoint): string {
    if ':' in e.host then "[" + e.host + "]:" + e.port else e.host + ":" + e.port
  }

  function PrintEach(endpoints: seq<Endpoint>): (r: seq<string>)
    ensures |r| == |endpoints|
    ensures forall i :: 0 <= i < |endpoints| ==> r[i] == Print(endpoints[i])
  {
    seq(|endpoints|, i requires 0 <= i < |endpoints| => Print(endpoints[i]))
  }

  function PrintAll(endpoints: seq<Endpoint>): string {
    JoinWith(PrintEach(endpoints), ',')
  }

  /** The endpoints that survive printing and parsing. */
  predicate Printable(e: Endpoint) {
    && e.host != "" && Trimmed(e.host) && ',' !in e.host && ValidPort(e.port)
    && if ':' in e.host then ']' !in e.host else e.host[0] != '['
  }

  lemma DigitsArePlain(port: string)
    requires port != "" && AllDigits(port)
    ensures Trimmed(port) && ':' !in port && ',' !in port && ']' !in port
  {
  }

  lemma TrimIdentity(s: string)
    requires Trimmed(s)
    ensures TrimSpace(s) == s
  {
    TrimUnique("", s, "");
    assert "" + s + "" == s;
  }

  lemma {:induction false} FirstIndex(s: string, c: char, k: nat)
    requires k < |s| && s[k] == c && forall i :: 0 <= i < k ==> s[i] != c
    ensures IndexOf(s, c) == Some(k)
    decreases k
  {
    if k > 0 {
      FirstIndex(s[1..], c, k - 1);
    }
  }

  lemma BracketedText(host: string, port: string, s: string)
    requires s == "[" + host + "]:" + port && port != ""
    ensures var end := |host| + 1;
            && end < |s| && s[0] == '[' && s[end] == ']' && s[1..end] == host && s[end + 1..] == ":" + port
            && s[|s| - 1] == port[|port| - 1]
  {
    assert s == "[" + host + "]" + (":" + port);
  }

  lemma BracketShape(e: Endpoint)
    requires Printable(e) && ':' in e.host
    ensures var s, end := Print(e), |e.host| + 1;
            && s != "" && s[0] == '[' && Trimmed(s) && end < |s| && s[end] == ']'
            && (forall i :: 0 <= i < end ==> s[i] != ']')
            && s[1..end] == e.host && s[end + 1..] == ":" + e.port
  {
    var s, end := Print(e), |e.host| + 1;
    assert s == "[" + e.host + "]:" + e.port;
    DigitsArePlain(e.port);
    BracketedText(e.host, e.port, s);
  }

  /** Parsing a bracketed value whose suffix starts with a colon. */
  lemma BracketResult(v: string, end: nat, defaultPort: string)
    requires v != "" && v[0] == '[' && IndexOf(v, ']') == Some(end) && end > 0
    ensures var suffix := TrimSpace(v[end + 1..]);
            suffix != "" && suffix[0] == ':' && TrimSpace(v[1..end]) != "" ==>
              ParseEndpoint(v, defaultPort) == ValidatePort(TrimSpace(v[1..end]), TrimSpace(suffix[1..]))
  {
  }

  lemma PrintedBracketParses(e: Endpoint, defaultPort: string)
    requires Printable(e) && ':' in e.host
    ensures ParsePart(Print(e), defaultPort) == Success(e)
  {
    var s, end := Print(e), |e.host| + 1;
    BracketShape(e);
    DigitsArePlain(e.port);
    assert ValidatePort(e.host, e.port) == Success(e);
    hide Print, TrimSpace, IndexOf, ParseEndpoint, ValidatePort;
    TrimIdentity(s);
    FirstIndex(s, ']', end);
    TrimIdentity(e.host);
    TrimIdentity(":" + e.port);
    TrimIdentity(e.port);
    assert (":" + e.port)[1..] == e.port;
    BracketResult(s, end, defaultPort);
  }

  lemma PrintedPlainParses(e: Endpoint, defaultPort: string)
    requires Printable(e) && ':' !in e.host
    ensures ParsePart(Print(e), defaultPort) == Success(e)
  {
    var s := Print(e);
    var k := |e.host|;
    DigitsArePlain(e.port);
    assert s == e.host + ":" + e.port;
    assert s[0] == e.host[0] && s[k] == ':' && s[|s| - 1] == e.port[|e.port| - 1];
    assert s[..k] == e.host && s[k + 1..] == e.port;
    TrimIdentity(s);
    assert forall i :: 0 <= i < k ==> s[i] == e.host[i];
    FirstIndex(s, ':', k);
    TrimIdentity(e.host);
    TrimIdentity(e.port);
  }

  lemma {:induction false} PartsAreParsed(parts: seq<string>, defaultPort: string, endpoints: seq<Endpoint>)
    ensures ParseParts(parts, defaultPort) == Success(endpoints)
       <==> |endpoints| == |parts| && forall i :: 0 <= i < |parts| ==> ParsePart(parts[i], defaultPort) == Success(endpoints[i])
    decreases |parts|
  {
    hide ParsePart;
    if parts != [] && |endpoints| == |parts| {
      var n := |parts| - 1;
      PartsAreParsed(parts[..n], defaultPort, endpoints[..n]);
      assert endpoints == endpoints[..n] + [endpoints[n]];
    }
  }

  // ---- what parsing can return ----

  /** Whatever parses with an explicit port is printable; hosts never contain the list separator. */
  lemma ParsedHost(raw: string, defaultPort: string)
    requires ParsePart(raw, defaultPort).Success? && ',' !in raw
    ensures var e := ParsePart(raw, defaultPort).value;
            e.host != "" && Trimmed(e.host) && ',' !in e.host && (e.port == defaultPort || ValidPort(e.port))
  {
    var value := TrimSpace(raw);
    TrimKeeps(raw, ',');
    if value[0] == '[' {
      var end := IndexOf(value, ']').value;
      TrimKeeps(value[1..end], ',');
    } else if IndexOf(value, ':').Some? {
      TrimKeeps(value[..IndexOf(value, ':').value], ',');
    }
  }

  lemma TrimKeeps(s: string, c: char)
    requires c !in s
    ensures c !in TrimSpace(s) && Trimmed(TrimSpace(s))
  {
    var lead, tail := TrimParts(s);
    assert forall i :: 0 <= i < |TrimSpace(s)| ==> TrimSpace(s)[i] == s[|lead| + i];
  }

  lemma TrimNoLead(s: string) returns (tail: string)
    requires s != "" && !IsSpace(s[0])
    ensures s == TrimSpace(s) + tail && TrimSpace(s) != ""
    ensures forall i :: |TrimSpace(s)| <= i < |s| ==> IsSpace(s[i])
  {
    var lead, t := TrimParts(s);
    assert forall i :: 0 <= i < |lead| ==> s[i] == lead[i];
    assert lead + TrimSpace(s) == TrimSpace(s);
    tail := t;
    assert forall j :: 0 <= j < |t| ==> s[|TrimSpace(s)| + j] == t[j];
  }

  lemma TrimKeepsMark(s: string, c: char)
    requires c in s && !IsSpace(c)
    ensures c in TrimSpace(s)
  {
    var lead, tail := TrimParts(s);
    var m := TrimSpace(s);
    assert s == lead + m + tail;
    assert forall i :: 0 <= i < |s| ==> IsSpace(s[i]) || (|lead| <= i < |lead| + |m| && s[i] == m[i - |lead|]);
  }

  lemma BracketedPart(e: Endpoint, v: string, defaultPort: string)
    requires ParseEndpoint(v, defaultPort) == Success(e) && ':' in e.host
    requires v <= Print(e) && v != "" && v[0] == '[' && |e.host| + 2 < |v|
    ensures ']' !in e.host && ValidPort(e.port)
  {
    hide Print, TrimSpace, IndexOf, ParseEndpoint, ValidPort;
    var end := BracketSuccess(v, defaultPort);
    BracketCloses(e, v, end);
    TrimKeepsMark(v[end + 1..], ':');
  }

  /** A bracketed print that comes back unchanged was printable. */
  lemma BracketReturns(e: Endpoint, defaultPort: string)
    requires ParsePart(Print(e), defaultPort) == Success(e) && ':' in e.host && ',' !in Print(e)
    ensures Printable(e)
  {
    ParsedHost(Print(e), defaultPort);
    BracketOpens(e);
    assert ParsePart(Print(e), defaultPort) == ParseEndpoint(TrimSpace(Print(e)), defaultPort);
    hide Print, TrimSpace, IndexOf, ParseEndpoint, ParsePart, ValidPort, Trimmed;
    BracketedPart(e, TrimSpace(Print(e)), defaultPort);
  }

  /** What a successfully parsed bracketed value looks like. */
  lemma BracketSuccess(v: string, defaultPort: string) returns (end: nat)
    requires v != "" && v[0] == '[' && ParseEndpoint(v, defaultPort).Success?
    ensures IndexOf(v, ']') == Some(end) && 0 < end < |v|
    ensures var e := ParseEndpoint(v, defaultPort).value;
            e.host == TrimSpace(v[1..end]) && (TrimSpace(v[end + 1..]) == "" || ValidPort(e.port))
  {
    end := IndexOf(v, ']').value;
  }

  lemma BracketOpens(e: Endpoint)
    requires ':' in e.host
    ensures var v := TrimSpace(Print(e));
            v != "" && v[0] == '[' && v <= Print(e) && |e.host| + 2 < |v|
  {
    var s := Print(e);
    assert s[0] == '[' && s[|e.host| + 2] == ':';
    var tail := TrimNoLead(s);
    assert TrimSpace(s)[0] == s[0];
  }

  lemma BracketPrefix(e: Endpoint, v: string)
    requires ':' in e.host && v <= Print(e) && |e.host| + 2 < |v|
    ensures v[|e.host| + 1] == ']' && v[|e.host| + 2] == ':' && v[0] == '['
    ensures forall i :: 0 <= i < |e.host| ==> v[i + 1] == e.host[i]
  {
    var s := Print(e);
    assert v == s[..|v|];
    assert forall i :: 0 <= i < |v| ==> v[i] == s[i];
  }

  lemma FirstBracket(v: string, host: string, end: nat)
    requires |host| + 2 < |v| && v[|host| + 1] == ']' && v[0] == '['
    requires forall i :: 0 <= i < |host| ==> v[i + 1] == host[i]
    requires IndexOf(v, ']') == Some(end) && ']' !in host
    ensures end == |host| + 1
  {
    assert end <= |host| + 1;
    assert forall i :: 0 < i <= |host| ==> v[i] == host[i - 1];
  }

  lemma BracketCloses(e: Endpoint, v: string, end: nat)
    requires ':' in e.host && v <= Print(e) && |e.host| + 2 < |v|
    requires IndexOf(v, ']') == Some(end) && end > 0 && TrimSpace(v[1..end]) == e.host
    ensures ']' !in e.host && end == |e.host| + 1 && v[end + 1..] != "" && v[end + 1..][0] == ':'
  {
    TrimKeeps(v[1..end], ']');
    BracketPrefix(e, v);
    hide Print, TrimSpace;
    FirstBracket(v, e.host, end);
  }

  lemma PlainShape(e: Endpoint)
    requires ':' !in e.host && e.host != "" && Trimmed(e.host)
    ensures var v := TrimSpace(Print(e));
            |e.host| < |v| && v[|e.host|] == ':' && forall i :: 0 <= i < |e.host| ==> v[i] == e.host[i]
  {
    var s, k := Print(e), |e.host|;
    assert s[0] == e.host[0] && s[k] == ':' && forall i :: 0 <= i < k ==> s[i] == e.host[i];
    hide Print, TrimSpace;
    var tail := TrimNoLead(s);
    var v := TrimSpace(s);
    assert k < |v|;
    assert forall i :: 0 <= i <= k ==> v[i] == s[i];
  }

  lemma PlainPart(e: Endpoint, v: string, defaultPort: string)
    requires ParseEndpoint(v, defaultPort) == Success(e) && e.host != "" && ':' !in e.host && |e.host| < |v|
    requires v[|e.host|] == ':' && forall i :: 0 <= i < |e.host| ==> v[i] == e.host[i]
    ensures e.host[0] != '[' && ValidPort(e.port)
  {
    hide TrimSpace, ValidPort;
    if v[0] == '[' {
      var end := IndexOf(v, ']').value;
      PlainIsNotBracketed(v, end, e.host);
    } else {
      FirstIndex(v, ':', |e.host|);
    }
  }

  /** A plain print that comes back unchanged was printable. */
  lemma PlainReturns(e: Endpoint, defaultPort: string)
    requires ParsePart(Print(e), defaultPort) == Success(e) && ':' !in e.host && ',' !in Print(e)
    ensures Printable(e)
  {
    ParsedHost(Print(e), defaultPort);
    PlainShape(e);
    assert ParsePart(Print(e), defaultPort) == ParseEndpoint(TrimSpace(Print(e)), defaultPort);
    hide Print, TrimSpace, ValidPort, ParseEndpoint, ParsePart, Trimmed;
    PlainPart(e, TrimSpace(Print(e)), defaultPort);
  }

  lemma PlainIsNotBracketed(v: string, end: nat, host: string)
    requires 0 < end < |v| && |host| < |v| && v[|host|] == ':' && ':' !in host && host != ""
    ensures TrimSpace(v[1..end]) != host
  {
    var inner := v[1..end];
    var _, _ := TrimParts(inner);
    if end > |host| {
      assert inner[|host| - 1] == ':';
      TrimKeepsMark(inner, ':');
    }
  }

  lemma PrintableExactly(e: Endpoint, defaultPort: string)
    requires ',' !in Print(e)
    ensures ParsePart(Print(e), defaultPort) == Success(e) <==> Printable(e)
  {
    if Printable(e) {
      if ':' in e.host { PrintedBracketParses(e, defaultPort); } else { PrintedPlainParses(e, defaultPort); }
    }
    if ParsePart(Print(e), defaultPort) == Success(e) {
      if ':' in e.host { BracketReturns(e, defaultPort); } else { PlainReturns(e, defaultPort); }
    }
  }

  // ---- whole lists ----

  function Occurrences(s: string, c: char): nat {
    if s == "" then 0 else (if s[0] == c then 1 else 0) + Occurrences(s[1..], c)
  }

  lemma {:induction false} SplitCount(s: string, c: char)
    ensures |SplitOn(s, c)| == 1 + Occurrences(s, c)
    decreases |s|
  {
    if s != "" { SplitCount(s[1..], c); }
  }

  lemma {:induction false} OccurrencesConcat(a: string, b: string, c: char)
    ensures Occurrences(a + b, c) == Occurrences(a, c) + Occurrences(b, c)
    decreases |a|
  {
    if a == "" {
      assert a + b == b;
    } else {
      assert (a + b)[1..] == a[1..] + b;
      OccurrencesConcat(a[1..], b, c);
    }
  }

  lemma {:induction false} NoOccurrence(s: string, c: char)
    ensures Occurrences(s, c) == 0 <==> c !in s
    decreases |s|
  {
    if s != "" {
      NoOccurrence(s[1..], c);
      assert s == [s[0]] + s[1..];
    }
  }

  /** Joining and splitting gives more parts as soon as one part holds the separator. */
  lemma {:induction false} JoinedCount(parts: seq<string>, c: char)
    requires parts != []
    ensures |SplitOn(JoinWith(parts, c), c)| >= |parts|
    ensures |SplitOn(JoinWith(parts, c), c)| == |parts| ==> forall p :: p in parts ==> c !in p
    decreases |parts|
  {
    var s := JoinWith(parts, c);
    SplitCount(s, c);
    NoOccurrence(parts[0], c);
    if |parts| > 1 {
      JoinedCount(parts[1..], c);
      SplitCount(JoinWith(parts[1..], c), c);
      OccurrencesConcat(parts[0] + [c], JoinWith(parts[1..], c), c);
      OccurrencesConcat(parts[0], [c], c);
      assert Occurrences([c], c) == 1;
    }
  }

  /**
   Main result, round trip: a printed list of endpoints parses to that list exactly when it is not
   empty and each host is non-empty, trimmed, without comma and bracket trouble, and each port is valid.
   */
  lemma PrintParseExactly(endpoints: seq<Endpoint>, defaultPort: string)
    ensures ParseSpec(PrintAll(endpoints), defaultPort) == Success(endpoints)
       <==> endpoints != [] && forall e :: e in endpoints ==> Printable(e)
  {
    if endpoints != [] {
      var prints := PrintEach(endpoints);
      JoinedIsNotEmpty(endpoints);
      JoinedCount(prints, ',');
      PartsAreParsed(SplitOn(PrintAll(endpoints), ','), defaultPort, endpoints);
      if forall e :: e in endpoints ==> Printable(e) {
        PrintsAreCommaFree(endpoints);
      }
      if forall p :: p in prints ==> ',' !in p {
        SplitJoin(prints, ',');
        EachPrintable(endpoints, defaultPort);
      }
    }
  }

  lemma JoinedIsNotEmpty(endpoints: seq<Endpoint>)
    requires endpoints != []
    ensures PrintAll(endpoints) != ""
  {
    var prints := PrintEach(endpoints);
    assert prints[0] != "";
  }

  lemma PrintsAreCommaFree(endpoints: seq<Endpoint>)
    requires forall e :: e in endpoints ==> Printable(e)
    ensures forall p :: p in PrintEach(endpoints) ==> ',' !in p
  {
    forall p | p in PrintEach(endpoints) ensures ',' !in p {
      var i :| 0 <= i < |endpoints| && p == Print(endpoints[i]);
      assert endpoints[i] in endpoints;
      DigitsArePlain(endpoints[i].port);
    }
  }

  lemma EachPrintable(endpoints: seq<Endpoint>, defaultPort: string)
    requires forall p :: p in PrintEach(endpoints) ==> ',' !in p
    ensures (forall i :: 0 <= i < |endpoints| ==> ParsePart(PrintEach(endpoints)[i], defaultPort) == Success(endpoints[i]))
       <==> forall e :: e in endpoints ==> Printable(e)
  {
    hide ParsePart, Printable, Print;
    forall i | 0 <= i < |endpoints|
      ensures ParsePart(PrintEach(endpoints)[i], defaultPort) == Success(endpoints[i]) <==> Printable(endpoints[i])
    {
      assert PrintEach(endpoints)[i] in PrintEach(endpoints);
      PrintableExactly(endpoints[i], defaultPort);
    }
  }

  // ---- the two lists of the connection string ----

  function Hosts(endpoints: seq<Endpoint>): (r: seq<string>)
    ensures |r| == |endpoints| && forall i :: 0 <= i < |endpoints| ==> r[i] == endpoints[i].host
  {
    seq(|endpoints|, i requires 0 <= i < |endpoints| => endpoints[i].host)
  }

  function Ports(endpoints: seq<Endpoint>): (r: seq<string>)
    ensures |r| == |endpoints| && forall i :: 0 <= i < |endpoints| ==> r[i] == endpoints[i].port
  {
    seq(|endpoints|, i requires 0 <= i < |endpoints| => endpoints[i].port)
  }

  /** The `host` and `port` parameters of `connConfig`. */
  method ConnectionLists(endpoints: seq<Endpoint>) returns (hosts: string, ports: string)
    ensures hosts == JoinWith(Hosts(endpoints), ',') && ports == JoinWith(Ports(endpoints), ',')
  {
    var hostList: seq<string>, portList: seq<string> := [], [];
    for i := 0 to |endpoints|
      invariant hostList == Hosts(endpoints)[..i] && portList == Ports(endpoints)[..i]
    {
      hostList, portList := hostList + [endpoints[i].host], portList + [endpoints[i].port];
    }
    assert Hosts(endpoints)[..|endpoints|] == Hosts(endpoints) && Ports(endpoints)[..|endpoints|] == Ports(endpoints);
    hosts, ports := JoinWith(hostList, ','), JoinWith(portList, ',');
  }

  /**
   Main result, alignment: for every accepted input the joined host and port lists split back into
   lists of one length, and position i of both belongs to endpoint i.
   */
  lemma ListsStayAligned(hosts: string, defaultPort: string)
    requires ValidPort(defaultPort) && ParseSpec(hosts, defaultPort).Success?
    ensures var endpoints := ParseSpec(hosts, defaultPort).value;
            && endpoints != []
            && SplitOn(JoinWith(Hosts(endpoints), ','), ',') == Hosts(endpoints)
            && SplitOn(JoinWith(Ports(endpoints), ','), ',') == Ports(endpoints)
            && (forall e :: e in endpoints ==> e.host != "" && ValidPort(e.port))
  {
    var endpoints := ParseSpec(hosts, defaultPort).value;
    if hosts == "" {
      SocketIsGood(defaultPort);
    } else {
      hide ParsePart, ValidPort;
      PartsAreGood(SplitOn(hosts, ','), defaultPort, endpoints);
    }
    hide ParseSpec, ValidPort, SplitOn;
    JoinedApart(endpoints);
  }

  lemma SocketIsGood(defaultPort: string)
    requires ValidPort(defaultPort)
    ensures GoodEndpoint(Endpoint(SOCKET_DIR, defaultPort))
  {
  }

  lemma PartsAreGood(parts: seq<string>, defaultPort: string, endpoints: seq<Endpoint>)
    requires ValidPort(defaultPort) && forall p :: p in parts ==> ',' !in p
    requires ParseParts(parts, defaultPort) == Success(endpoints)
    ensures forall i :: 0 <= i < |endpoints| ==> GoodEndpoint(endpoints[i])
  {
    hide ParsePart, ValidPort, ParseParts;
    PartsAreParsed(parts, defaultPort, endpoints);
    forall i | 0 <= i < |endpoints| ensures GoodEndpoint(endpoints[i]) {
      assert parts[i] in parts;
      ParsedHost(parts[i], defaultPort);
    }
  }

  /** What the two lists need to be split back. */
  predicate GoodEndpoint(e: Endpoint) {
    e.host != "" && ',' !in e.host && ValidPort(e.port)
  }

  lemma JoinedApart(endpoints: seq<Endpoint>)
    requires endpoints != [] && forall i :: 0 <= i < |endpoints| ==> GoodEndpoint(endpoints[i])
    ensures SplitOn(JoinWith(Hosts(endpoints), ','), ',') == Hosts(endpoints)
    ensures SplitOn(JoinWith(Ports(endpoints), ','), ',') == Ports(endpoints)
  {
    hide SplitOn, JoinWith;
    forall p | p in Ports(endpoints) ensures ',' !in p {
      var i :| 0 <= i < |endpoints| && p == endpoints[i].port;
      DigitsArePlain(p);
    }
    SplitJoin(Hosts(endpoints), ',');
    SplitJoin(Ports(endpoints), ',');
  }
}
