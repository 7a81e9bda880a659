/** The domain-mapping table: a configuration string of comma-separated
    `domain:ip[:port]` entries, read once into a table from hostname to
    `{ip, port}`, and the URL rewrite that sends a mapped hostname straight
    to its IP over plain HTTP. */
module DomainMappings {
  import opened Optional
  import opened Strings

  /** Where a hostname is sent. `ip` is absent when the entry had no colon
      (`parts[1]` is `undefined`); `port` is absent when the entry had fewer
      than three segments (`null`), and may be present but empty. */
  datatype Mapping = Mapping(ip: Option<string>, port: Option<string>)

  /** One parsed configuration entry: the domain and where it goes. */
  datatype Entry = Entry(domain: string, mapping: Mapping)

  /** A URL already parsed into the parts the rewrite needs: the text as the
      caller gave it (fetched unchanged when no mapping applies), the hostname,
      the path and the query string (with its `?`). */
  datatype Url = Url(text: string, hostname: string, pathname: string, search: string)

  /** Reads one entry: segment 0 of the colon split is the domain, segment 1 the
      ip, segment 2 the port when there are more than two segments; further
      segments are ignored. So the domain is the longest colon-free prefix of
      the entry, the ip is absent exactly when the entry has no colon, and a
      port is only ever read after an ip. */
  function ParseEntry(entry: string): (e: Entry)
    ensures ':' !in e.domain
    ensures |e.domain| <= |entry| && entry[..|e.domain|] == e.domain
    ensures |e.domain| < |entry| ==> entry[|e.domain|] == ':'
    ensures e.mapping.ip.None? <==> ':' !in entry
    ensures e.mapping.port.Some? ==> e.mapping.ip.Some?
  {
    var parts := Split(entry, ':');
    JoinShape(parts, ':');
    var ip := if |parts| > 1 then Some(parts[1]) else None;
    var port := if |parts| > 2 then Some(parts[2]) else None;
    Entry(parts[0], Mapping(ip, port))
  }

  /** The reducer's step: an empty entry leaves the table alone; any other
      entry sets (or overwrites) its own domain's mapping and changes nothing else. */
  function AddEntry(table: map<string, Mapping>, entry: string): (r: map<string, Mapping>)
    ensures entry == "" ==> r == table
    ensures entry != "" ==>
      && r.Keys == table.Keys + {ParseEntry(entry).domain}
      && r[ParseEntry(entry).domain] == ParseEntry(entry).mapping
    ensures forall k :: k in table && !Defines(entry, k) ==> r[k] == table[k]
  {
    if entry == "" then table
    else
      var e := ParseEntry(entry);
      table[e.domain := e.mapping]
  }

  /** `entries.reduce(AddEntry, {})`: the entries folded in from first to last.
      (What the fold holds is stated by `TableKeys` and `LastEntryWins`.) */
  function Table(entries: seq<string>): map<string, Mapping>
    decreases |entries|
  {
    if |entries| == 0 then map[]
    else AddEntry(Table(entries[..|entries| - 1]), entries[|entries| - 1])
  }

  /** The table built from the configuration value. An absent or empty value
      builds the empty table; a value without commas is a single entry. */
  function BuildTable(config: Option<string>): (r: map<string, Mapping>)
    ensures config.None? || config == Some("") ==> r == map[]
    ensures config.Some? && config.value != "" && ',' !in config.value ==>
      r == map[ParseEntry(config.value).domain := ParseEntry(config.value).mapping]
  {
    var text := if config.Some? then config.value else "";
    SingleEntry(text);
    Table(Split(text, ','))
  }

  /** A comma-free entry is the whole list, and builds one row (none when empty). */
  lemma SingleEntry(text: string)
    ensures ',' !in text ==> Table(Split(text, ',')) == AddEntry(map[], text)
  {
    if ',' !in text {
      SplitWithoutSeparator(text, ',');
      assert Table([text]) == AddEntry(Table([]), text);
    }
  }

  /** The key an entry would be stored under, when it is stored at all. */
  predicate Defines(entry: string, domain: string)
  {
    entry != "" && ParseEntry(entry).domain == domain
  }

  /** An absent or empty configuration builds the empty table. */
  lemma EmptyConfig()
    ensures BuildTable(None) == map[]
    ensures BuildTable(Some("")) == map[]
  {
    SplitWithoutSeparator("", ',');
    assert Table([""]) == AddEntry(Table([]), "");
  }

  /** A domain is in the table exactly when some non-empty entry names it. */
  lemma {:induction false} TableKeys(entries: seq<string>, domain: string)
    ensures domain in Table(entries) <==> exists i :: 0 <= i < |entries| && Defines(entries[i], domain)
    decreases |entries|
  {
    if |entries| > 0 {
      var init := entries[..|entries| - 1];
      TableKeys(init, domain);
      if domain in Table(init) {
        var i :| 0 <= i < |init| && Defines(init[i], domain);
        assert Defines(entries[i], domain);
      }
      if exists i :: 0 <= i < |entries| && Defines(entries[i], domain) {
        var i :| 0 <= i < |entries| && Defines(entries[i], domain);
        if i < |init| {
          assert Defines(init[i], domain);
        }
      }
    }
  }

  /** The last entry naming a domain decides its mapping: earlier entries for
      the same domain are overwritten, and entries for other domains and empty
      entries after it leave it alone. */
  lemma {:induction false} LastEntryWins(entries: seq<string>, i: nat, domain: string)
    requires i < |entries| && Defines(entries[i], domain)
    requires forall j :: i < j < |entries| ==> !Defines(entries[j], domain)
    ensures domain in Table(entries)
    ensures Table(entries)[domain] == ParseEntry(entries[i]).mapping
    decreases |entries|
  {
    var init := entries[..|entries| - 1];
    if i < |entries| - 1 {
      LastEntryWins(init, i, domain);
      assert !Defines(entries[|entries| - 1], domain);
    }
  }

  /** Empty entries, such as those a doubled or trailing comma leaves, change nothing. */
  lemma {:induction false} EmptyEntrySkipped(before: seq<string>, after: seq<string>)
    ensures Table(before + [""] + after) == Table(before + after)
    decreases |after|
  {
    if |after| == 0 {
      assert before + [""] + after == before + [""];
      assert before + after == before;
      assert (before + [""])[..|before|] == before;
    } else {
      var init := after[..|after| - 1];
      EmptyEntrySkipped(before, init);
      assert (before + [""] + after)[..|before + [""] + after| - 1] == before + [""] + init;
      assert (before + after)[..|before + after| - 1] == before + init;
    }
  }

  /** The text of an entry with an ip and an optional port. */
  function EntryText(domain: string, ip: string, port: Option<string>): string
  {
    domain + ":" + ip + (if port.Some? then ":" + port.value else "")
  }

  predicate Plain(s: string)
  {
    ':' !in s && ',' !in s
  }

  /** Reading an entry's text gives back its domain, ip and port. */
  lemma ParseEntryText(domain: string, ip: string, port: Option<string>)
    requires Plain(domain) && Plain(ip) && (port.Some? ==> Plain(port.value))
    ensures ParseEntry(EntryText(domain, ip, port)) == Entry(domain, Mapping(Some(ip), port))
  {
    if port.Some? {
      JoinThree(domain, ip, port.value, ':');
      assert EntryText(domain, ip, port) == Join([domain, ip, port.value], ':');
      SplitJoin([domain, ip, port.value], ':');
    } else {
      JoinTwo(domain, ip, ':');
      assert EntryText(domain, ip, port) == Join([domain, ip], ':');
      SplitJoin([domain, ip], ':');
    }
  }

  lemma JoinTwo(a: string, b: string, sep: char)
    ensures Join([a, b], sep) == a + [sep] + b
  {
    assert [a, b][1..] == [b];
  }

  lemma JoinThree(a: string, b: string, c: string, sep: char)
    ensures Join([a, b, c], sep) == a + [sep] + b + [sep] + c
  {
    assert [a, b, c][1..] == [b, c];
    JoinTwo(b, c, sep);
  }

  /** Segments past the third are ignored, whatever follows the third colon. */
  lemma ParseEntryIgnoresExtra(domain: string, ip: string, port: string, extra: string)
    requires Plain(domain) && Plain(ip) && Plain(port)
    ensures ParseEntry(domain + ":" + ip + ":" + port + ":" + extra)
         == Entry(domain, Mapping(Some(ip), Some(port)))
  {
    var s3 := port + [':'] + extra;
    var s2 := ip + [':'] + s3;
    var s1 := domain + [':'] + s2;
    assert s1 == domain + ":" + ip + ":" + port + ":" + extra;
    SplitCons(port, extra, ':');
    SplitCons(ip, s3, ':');
    SplitCons(domain, s2, ':');
    var parts := Split(s1, ':');
    assert parts[0] == domain && parts[1] == ip && parts[2] == port;
  }

  /** An entry without a colon maps its whole text to an absent ip and port. */
  lemma ParseEntryWithoutColon(entry: string)
    requires ':' !in entry
    ensures ParseEntry(entry) == Entry(entry, Mapping(None, None))
  {
    SplitWithoutSeparator(entry, ':');
  }

  /** One well-formed route of a configuration: a domain, an ip and an optional port. */
  datatype Route = Route(domain: string, ip: string, port: Option<string>)

  predicate PlainRoute(r: Route)
  {
    Plain(r.domain) && Plain(r.ip) && (r.port.Some? ==> Plain(r.port.value))
  }

  function RouteTexts(routes: seq<Route>): (texts: seq<string>)
    ensures |texts| == |routes|
    ensures forall i :: 0 <= i < |routes| ==> texts[i] == EntryText(routes[i].domain, routes[i].ip, routes[i].port)
    decreases |routes|
  {
    if |routes| == 0 then []
    else [EntryText(routes[0].domain, routes[0].ip, routes[0].port)] + RouteTexts(routes[1..])
  }

  /** The configuration string listing `routes` in order. */
  function ConfigText(routes: seq<Route>): string
    requires |routes| >= 1
  {
    Join(RouteTexts(routes), ',')
  }

  /** Reading back a configuration string: its domains are exactly the routes'
      domains, and each domain goes where the last route naming it says. */
  lemma ConfigLookup(routes: seq<Route>, i: nat)
    requires |routes| >= 1 && i < |routes|
    requires forall j :: 0 <= j < |routes| ==> PlainRoute(routes[j])
    requires forall j :: i < j < |routes| ==> routes[j].domain != routes[i].domain
    ensures BuildTable(Some(ConfigText(routes))).Keys == set r | r in routes :: r.domain
    ensures BuildTable(Some(ConfigText(routes)))[routes[i].domain]
         == Mapping(Some(routes[i].ip), routes[i].port)
  {
    ConfigTable(routes);
    ConfigKeys(routes);
    ConfigEntries(routes);
    LastEntryWins(RouteTexts(routes), i, routes[i].domain);
  }

  /** A configuration string builds the table of its routes' entry texts. */
  lemma ConfigTable(routes: seq<Route>)
    requires |routes| >= 1
    requires forall j :: 0 <= j < |routes| ==> PlainRoute(routes[j])
    ensures BuildTable(Some(ConfigText(routes))) == Table(RouteTexts(routes))
  {
    ConfigEntries(routes);
  }

  /** The table of the routes' entry texts has exactly the routes' domains as keys. */
  lemma ConfigKeys(routes: seq<Route>)
    requires forall j :: 0 <= j < |routes| ==> PlainRoute(routes[j])
    requires |routes| >= 1
    ensures Table(RouteTexts(routes)).Keys == set r | r in routes :: r.domain
  {
    var texts := RouteTexts(routes);
    var table := Table(texts);
    var domains := set r | r in routes :: r.domain;
    forall k | k in table
      ensures k in domains
    {
      TableKeys(texts, k);
      var j :| 0 <= j < |texts| && Defines(texts[j], k);
      RouteDefines(routes, j);
      assert routes[j] in routes;
    }
    forall k | k in domains
      ensures k in table
    {
      var r :| r in routes && r.domain == k;
      var j :| 0 <= j < |routes| && routes[j] == r;
      RouteDefines(routes, j);
      TableKeys(texts, k);
    }
    SameKeys(table, domains);
  }

  lemma SameKeys<V>(m: map<string, V>, s: set<string>)
    requires forall k :: k in m ==> k in s
    requires forall k :: k in s ==> k in m
    ensures m.Keys == s
  {
  }

  /** The entry text of a route defines exactly that route's domain. */
  lemma RouteDefines(routes: seq<Route>, j: nat)
    requires j < |routes| && PlainRoute(routes[j])
    ensures Defines(RouteTexts(routes)[j], routes[j].domain)
    ensures ParseEntry(RouteTexts(routes)[j]).domain == routes[j].domain
  {
    var r := routes[j];
    ParseEntryText(r.domain, r.ip, r.port);
  }

  /** A configuration string splits into its routes' entry texts, each of
      which reads back as its route. */
  lemma ConfigEntries(routes: seq<Route>)
    requires |routes| >= 1
    requires forall j :: 0 <= j < |routes| ==> PlainRoute(routes[j])
    ensures Split(ConfigText(routes), ',') == RouteTexts(routes)
    ensures forall j :: 0 <= j < |routes| ==>
      && Defines(RouteTexts(routes)[j], routes[j].domain)
      && ParseEntry(RouteTexts(routes)[j]) == Entry(routes[j].domain, Mapping(Some(routes[j].ip), routes[j].port))
  {
    var texts := RouteTexts(routes);
    forall j | 0 <= j < |routes|
      ensures ',' !in texts[j]
      ensures Defines(texts[j], routes[j].domain)
      ensures ParseEntry(texts[j]) == Entry(routes[j].domain, Mapping(Some(routes[j].ip), routes[j].port))
    {
      ParseEntryText(routes[j].domain, routes[j].ip, routes[j].port);
      assert texts[j][|routes[j].domain|] == ':';
    }
    SplitJoin(texts, ',');
  }

  /** The port text appended to the authority: `:port` for a present,
      non-empty port, and nothing for an absent (`null`) or empty one. */
  function PortSuffix(m: Mapping): (r: string)
    ensures r == "" <==> m.port.None? || m.port.value == ""
    ensures r != "" ==> r[0] == ':' && r[1..] == m.port.value
  {
    if m.port.Some? && m.port.value != "" then ":" + m.port.value else ""
  }

  /** How a template literal writes the ip: a present ip as itself, an absent
      (`undefined`) one as the text `undefined`. */
  function IpText(ip: Option<string>): (r: string)
    ensures ip.Some? ==> r == ip.value
    ensures ip.None? ==> r == "undefined"
  {
    if ip.Some? then ip.value else "undefined"
  }

  /** The URL a mapped request is sent to: plain HTTP to the ip and port,
      then the original path and query and nothing else of the original URL. */
  function MappedUrl(m: Mapping, u: Url): (r: string)
    ensures |r| == 7 + |IpText(m.ip)| + |PortSuffix(m)| + |u.pathname| + |u.search|
    ensures r[..7] == "http://"
    ensures r[7..7 + |IpText(m.ip)|] == IpText(m.ip)
    ensures r[|r| - |u.pathname + u.search|..] == u.pathname + u.search
  {
    var r := "http://" + IpText(m.ip) + PortSuffix(m) + (u.pathname + u.search);
    ConcatLayout("http://", IpText(m.ip), PortSuffix(m), u.pathname + u.search);
    assert r == "http://" + IpText(m.ip) + PortSuffix(m) + u.pathname + u.search;
    r
  }

  /** Between the ip and the path sits exactly the port suffix, so a mapped
      URL is the scheme, the ip, the port suffix, the path and the query, in
      that order and with nothing else. */
  lemma MappedUrlPort(m: Mapping, u: Url)
    ensures var r := MappedUrl(m, u);
      r[7 + |IpText(m.ip)|..|r| - |u.pathname + u.search|] == PortSuffix(m)
  {
    var r := MappedUrl(m, u);
    assert r == "http://" + IpText(m.ip) + PortSuffix(m) + (u.pathname + u.search);
  }

  /** The URL actually fetched. A hostname the table holds is replaced by its
      mapping, keeping only the path and the query; any other URL is used as
      given. The result depends on the original URL only through its
      hostname, path and query when mapped. */
  function EffectiveUrl(table: map<string, Mapping>, u: Url): (r: string)
    ensures u.hostname !in table ==> r == u.text
    ensures u.hostname in table ==>
      && |r| >= 7 + |u.pathname + u.search|
      && r[..7] == "http://"
      && r[|r| - |u.pathname + u.search|..] == u.pathname + u.search
  {
    if u.hostname in table then MappedUrl(table[u.hostname], u) else u.text
  }

  /** With no configuration, no URL is ever rewritten. */
  lemma NoConfigNoRewrite(config: Option<string>, u: Url)
    requires config == None || config == Some("")
    ensures EffectiveUrl(BuildTable(config), u) == u.text
  {
    EmptyConfig();
  }

  /** The text up to the first `c`, and the rest from that `c` on. */
  function SplitAt(s: string, c: char): (string, string)
    decreases |s|
  {
    if |s| == 0 then ("", "")
    else if s[0] == c then ("", s)
    else
      var (a, b) := SplitAt(s[1..], c);
      ([s[0]] + a, b)
  }

  lemma {:induction false} SplitAtJoin(a: string, b: string, c: char)
    requires c !in a
    requires |b| > 0 && b[0] == c
    ensures SplitAt(a + b, c) == (a, b)
    decreases |a|
  {
    if |a| > 0 {
      assert (a + b)[1..] == a[1..] + b;
      SplitAtJoin(a[1..], b, c);
      assert a == [a[0]] + a[1..];
    } else {
      assert a + b == b;
    }
  }

  lemma {:induction false} SplitAtWhole(a: string, c: char)
    requires c !in a
    ensures SplitAt(a, c) == (a, "")
    decreases |a|
  {
    if |a| > 0 {
      SplitAtWhole(a[1..], c);
      assert a == [a[0]] + a[1..];
    }
  }

  /** Reading a mapped URL back: after the `http://` scheme, the authority
      (up to the first `/`) is the ip followed by `:port` exactly when the
      port is non-empty, and everything from that `/` on is the original path
      and query. Nothing else of the original URL survives. */
  lemma MappedUrlParts(m: Mapping, u: Url)
    requires m.ip.Some? && '/' !in m.ip.value && ':' !in m.ip.value
    requires m.port.Some? ==> '/' !in m.port.value
    requires |u.pathname| > 0 && u.pathname[0] == '/'
    ensures var r := MappedUrl(m, u);
      && r[..7] == "http://"
      && SplitAt(r[7..], '/').1 == u.pathname + u.search
      && SplitAt(SplitAt(r[7..], '/').0, ':').0 == m.ip.value
      && SplitAt(SplitAt(r[7..], '/').0, ':').1
         == (if m.port.Some? && m.port.value != "" then ":" + m.port.value else "")
  {
    var r := MappedUrl(m, u);
    var authority := m.ip.value + PortSuffix(m);
    var rest := u.pathname + u.search;
    assert r == "http://" + authority + rest;
    assert r[7..] == authority + rest;
    SplitAtJoin(authority, rest, '/');
    if PortSuffix(m) == "" {
      assert authority == m.ip.value;
      SplitAtWhole(m.ip.value, ':');
    } else {
      SplitAtJoin(m.ip.value, PortSuffix(m), ':');
    }
  }

  /** Hostnames that a plain object answers from `Object.prototype` with a
      truthy value: its inherited methods, and `__proto__`, whose getter
      returns the prototype object itself. Looking one up finds a value even
      though no entry defined it. */
  const InheritedMembers: set<string> := {
    "__proto__", "constructor", "hasOwnProperty", "isPrototypeOf", "propertyIsEnumerable",
    "toString", "toLocaleString", "valueOf",
    "__defineGetter__", "__defineSetter__", "__lookupGetter__", "__lookupSetter__"
  }

  /** The lookup as written, on a plain object: an entry of the table, else an
      inherited member, which is truthy and has no `ip` or `port` fields. */
  function LookupAsWritten(table: map<string, Mapping>, hostname: string): (r: Option<Mapping>)
    ensures hostname in table ==> r == Some(table[hostname])
    ensures r.Some? && hostname !in table ==> r.value == Mapping(None, None)
    ensures r.Some? <==> hostname in table || hostname in InheritedMembers
  {
    if hostname in table then Some(table[hostname])
    else if hostname in InheritedMembers then Some(Mapping(None, None))
    else None
  }

  /** The URL rewrite as written, with the inherited-member lookup. */
  function EffectiveUrlAsWritten(table: map<string, Mapping>, u: Url): (r: string)
    ensures u.hostname !in table && u.hostname !in InheritedMembers ==> r == u.text
    ensures u.hostname in table ==> r == EffectiveUrl(table, u)
    ensures u.hostname !in table && u.hostname in InheritedMembers ==>
      r == "http://undefined" + u.pathname + u.search
  {
    match LookupAsWritten(table, u.hostname)
    case Some(m) => MappedUrl(m, u)
    case None => u.text
  }

  /** With no configuration at all, a request to `http://constructor/x`
      (a hostname that survives URL lowercasing) is rewritten as written to
      `http://undefined/x`, while the own-entry lookup leaves it alone. */
  lemma ConstructorHostRewritten()
    ensures var u := Url("http://constructor/x", "constructor", "/x", "");
      && EffectiveUrlAsWritten(BuildTable(None), u) == "http://undefined/x"
      && EffectiveUrl(BuildTable(None), u) == "http://constructor/x"
  {
    EmptyConfig();
  }

  /** With no configuration at all, a request to `http://__proto__/x` (`_` is
      a valid host character, and lowercasing keeps the name) is rewritten as
      written to `http://undefined/x`, while the own-entry lookup leaves it alone. */
  lemma ProtoHostRewritten()
    ensures var u := Url("http://__proto__/x", "__proto__", "/x", "");
      && EffectiveUrlAsWritten(BuildTable(None), u) == "http://undefined/x"
      && EffectiveUrl(BuildTable(None), u) == "http://__proto__/x"
  {
    EmptyConfig();
  }

  /** A worked example: the configuration `a.example.com:10.0.0.5:8080` sends
      `http://a.example.com/foo?x=1` to `http://10.0.0.5:8080/foo?x=1`. */
  lemma ExampleRewrite()
    ensures var u := Url("http://a.example.com/foo?x=1", "a.example.com", "/foo", "?x=1");
      EffectiveUrl(BuildTable(Some("a.example.com:10.0.0.5:8080")), u) == "http://10.0.0.5:8080/foo?x=1"
  {
    ExampleTable();
    ExampleMapped();
  }

  lemma ExampleTable()
    ensures BuildTable(Some("a.example.com:10.0.0.5:8080"))
         == map["a.example.com" := Mapping(Some("10.0.0.5"), Some("8080"))]
  {
    var domain, ip, port := "a.example.com", "10.0.0.5", "8080";
    assert Plain(domain) && Plain(ip) && Plain(port);
    SingleEntryTable(domain, ip, port);
    assert domain + ":" == "a.example.com:";
    assert "a.example.com:" + ip == "a.example.com:10.0.0.5";
    assert ":" + port == ":8080";
    assert "a.example.com:10.0.0.5" + ":8080" == "a.example.com:10.0.0.5:8080";
  }

  lemma ExampleMapped()
    ensures var u := Url("http://a.example.com/foo?x=1", "a.example.com", "/foo", "?x=1");
      var table := map["a.example.com" := Mapping(Some("10.0.0.5"), Some("8080"))];
      EffectiveUrl(table, u) == "http://10.0.0.5:8080/foo?x=1"
  {
  }

  /** A configuration of one full entry builds the one-row table. */
  lemma SingleEntryTable(domain: string, ip: string, port: string)
    requires Plain(domain) && Plain(ip) && Plain(port)
    ensures BuildTable(Some(EntryText(domain, ip, Some(port)))) == map[domain := Mapping(Some(ip), Some(port))]
  {
    var entry := EntryText(domain, ip, Some(port));
    ParseEntryText(domain, ip, Some(port));
    assert ',' !in entry;
    SplitWithoutSeparator(entry, ',');
    assert Table([entry]) == AddEntry(Table([]), entry);
  }
}
