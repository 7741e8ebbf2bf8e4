/** Looking up a peer or orderer configuration by name through entity matchers.

    GRPC options are shared mutable maps in the code, so they are objects here:
    a lookup that wrote into a stored map would not verify. */
module EndpointDirectory {
  import opened Options

  class GrpcOptions {
    var entries: map<string, string>

    constructor (entries: map<string, string>)
      ensures this.entries == entries
    {
      this.entries := entries;
    }
  }

  datatype Endpoint = Endpoint(url: string, options: GrpcOptions, cert: Option<string>)
  datatype EndpointValue = EndpointValue(url: string, options: map<string, string>, cert: Option<string>)

  function ValueOf(e: Endpoint): EndpointValue
    reads e.options
  {
    EndpointValue(e.url, e.options.entries, e.cert)
  }

  /** Empty substitution strings mean "not configured". */
  datatype MatchConfig = MatchConfig(
    mappedHost: string, mappedName: string, urlSubstitution: string, sslSubstitution: string, ignoreEndpoint: bool)

  /** A compiled pattern: whether it matches, and ReplaceAllString. */
  datatype Matcher = Matcher(matches: string -> bool, replaceAll: (string, string) -> string, config: MatchConfig)

  const SSL_OVERRIDE := "ssl-target-name-override"

  function MatchAndReplace(m: Matcher, src: string, repl: string): string {
    if '$' in repl then m.replaceAll(src, repl) else repl
  }

  function FirstMatch(ms: seq<Matcher>, key: string): Option<Matcher> {
    if ms == [] then None else if ms[0].matches(key) then Some(ms[0]) else FirstMatch(ms[1..], key)
  }

  datatype Lookup<T> = Ignored | NotFound | Found(value: T)

  datatype DirectoryValue = DirectoryValue(
    lower: string -> string, entries: map<string, EndpointValue>, matchers: seq<Matcher>, fallback: EndpointValue)

  /** The endpoint a matching matcher makes of `base`, its mapped host. */
  ghost function Substituted(m: Matcher, key: string, base: EndpointValue): EndpointValue {
    var url := if m.config.urlSubstitution != "" then MatchAndReplace(m, key, m.config.urlSubstitution) else base.url;
    var options := if m.config.sslSubstitution != ""
                   then base.options[SSL_OVERRIDE := MatchAndReplace(m, key, m.config.sslSubstitution)]
                   else base.options;
    EndpointValue(if url == "" && ':' in key then key else url, options, base.cert)
  }

  ghost function Resolve(d: DirectoryValue, key: string): Lookup<EndpointValue> {
    match FirstMatch(d.matchers, key)
    case Some(m) =>
      if m.config.ignoreEndpoint then Ignored
      else
        var host := d.lower(MatchAndReplace(m, key, m.config.mappedHost));
        Found(Substituted(m, key, if host in d.entries then d.entries[host] else d.fallback))
    case None => if d.lower(key) in d.entries then Found(d.entries[d.lower(key)]) else NotFound
  }

  class Directory {
    const lower: string -> string
    const entries: map<string, Endpoint>
    const matchers: seq<Matcher>
    const fallback: Endpoint

    constructor (lower: string -> string, entries: map<string, Endpoint>, matchers: seq<Matcher>, fallback: Endpoint)
      ensures this.lower == lower && this.entries == entries && this.matchers == matchers && this.fallback == fallback
    {
      this.lower, this.entries, this.matchers, this.fallback := lower, entries, matchers, fallback;
    }

    ghost function Stored(): set<GrpcOptions> {
      (set k | k in entries :: entries[k].options) + {fallback.options}
    }

    ghost function Value(): DirectoryValue
      reads Stored()
    {
      DirectoryValue(lower, map k | k in entries :: ValueOf(entries[k]), matchers, ValueOf(fallback))
    }

    /** getMappedPeer and getMappedOrderer: a copy, options included. */
    method GetMapped(host: string) returns (e: Endpoint)
      ensures fresh(e.options)
      ensures ValueOf(e) == if lower(host) in entries then ValueOf(entries[lower(host)]) else ValueOf(fallback)
    {
      var stored := if lower(host) in entries then entries[lower(host)] else fallback;
      var copied: map<string, string> := map[];
      var todo := stored.options.entries.Keys;
      while todo != {}
        invariant todo <= stored.options.entries.Keys
        invariant copied == stored.options.entries - todo
        decreases todo
      {
        var k :| k in todo;
        copied := copied[k := stored.options.entries[k]];
        todo := todo - {k};
      }
      assert stored.options.entries - {} == stored.options.entries;
      var options := new GrpcOptions(copied);
      e := Endpoint(stored.url, options, stored.cert);
    }

    /** matchPeer and matchOrderer. */
    method Match(key: string, m: Matcher) returns (r: Lookup<Endpoint>)
      ensures m.config.ignoreEndpoint ==> r.Ignored?
      ensures !m.config.ignoreEndpoint ==>
                var host := lower(MatchAndReplace(m, key, m.config.mappedHost));
                r.Found? && fresh(r.value.options)
                && ValueOf(r.value)
                   == Substituted(m, key, if host in entries then ValueOf(entries[host]) else ValueOf(fallback))
    {
      if m.config.ignoreEndpoint {
        return Ignored;
      }
      var e := GetMapped(MatchAndReplace(m, key, m.config.mappedHost));
      if m.config.urlSubstitution != "" {
        e := e.(url := MatchAndReplace(m, key, m.config.urlSubstitution));
      }
      if m.config.sslSubstitution != "" {
        e.options.entries := e.options.entries[SSL_OVERRIDE := MatchAndReplace(m, key, m.config.sslSubstitution)];
      }
      if e.url == "" && ':' in key {
        e := e.(url := key);
      }
      return Found(e);
    }

    /** tryMatchingPeerConfig and tryMatchingOrdererConfig without a search by
        URL.  Nothing that existed before is modified. */
    method TryMatching(key: string) returns (r: Lookup<Endpoint>)
      ensures r.Found? == Resolve(Value(), key).Found? && r.Ignored? == Resolve(Value(), key).Ignored?
      ensures r.Found? ==> ValueOf(r.value) == Resolve(Value(), key).value
      ensures r.Found? ==> fresh(r.value.options) || r.value.options in Stored()
    {
      var rest := matchers;
      while rest != []
        invariant FirstMatch(matchers, key) == FirstMatch(rest, key)
        decreases |rest|
      {
        if rest[0].matches(key) {
          r := Match(key, rest[0]);
          return;
        }
        rest := rest[1..];
      }
      if lower(key) in entries {
        return Found(entries[lower(key)]);
      }
      return NotFound;
    }

    /** The same with a search by URL, which PeerConfig and OrdererConfig ask for:
        `candidates` are the entries met, in whatever order. */
    method TryMatchingByURL(key: string, candidates: seq<Endpoint>, equalFold: (string, string) -> bool)
      returns (r: Lookup<Endpoint>)
      ensures var named := Resolve(Value(), key);
              && (named.Ignored? ==> r.Ignored?)
              && (named.Found? ==> r.Found? && ValueOf(r.value) == named.value)
              && (named.NotFound? ==>
                    if exists i: nat :: HasURL(candidates, i, key, equalFold)
                    then
                      && r.Found?
                      && exists i: nat :: FirstWithURL(candidates, i, key, equalFold) && r.value == candidates[i]
                    else if ':' in key then r == Found(Endpoint(key, fallback.options, fallback.cert))
                    else r.NotFound?)
    {
      r := TryMatching(key);
      if !r.NotFound? {
        return;
      }
      for i := 0 to |candidates|
        invariant forall j :: 0 <= j < i ==> !HasURL(candidates, j, key, equalFold)
      {
        if equalFold(candidates[i].url, key) {
          assert FirstWithURL(candidates, i, key, equalFold);
          return Found(candidates[i]);
        }
      }
      if ':' in key {
        return Found(Endpoint(key, fallback.options, fallback.cert));
      }
    }
  }

  ghost predicate HasURL(candidates: seq<Endpoint>, i: nat, url: string, equalFold: (string, string) -> bool) {
    i < |candidates| && equalFold(candidates[i].url, url)
  }

  ghost predicate FirstWithURL(candidates: seq<Endpoint>, i: nat, url: string, equalFold: (string, string) -> bool) {
    HasURL(candidates, i, url, equalFold) && forall j: nat :: j < i ==> !HasURL(candidates, j, url, equalFold)
  }
}
