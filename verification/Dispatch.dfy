/** The list of locations as it is built, and the request test on it. */
module Dispatch {
  import opened Wrappers
  import opened Strings
  import opened Sessions
  import opened Locations

  const SECURITY_CHECK := "/j_security_check"
  const URI_BUFFER := 4096

  /** The list after `cse_add_unique_location`: new locations go in front. */
  function AddUnique(list: seq<Location>, loc: Location): seq<Location>
  {
    if loc in list then list else [loc] + list
  }

  function AddAll(list: seq<Location>, adds: seq<Location>): seq<Location>
  {
    if adds == [] then list else AddUnique(AddAll(list, adds[..|adds| - 1]), adds[|adds| - 1])
  }

  ghost predicate NoDuplicates(list: seq<Location>)
  {
    forall i, j :: 0 <= i < j < |list| ==> list[i] != list[j]
  }

  /** The part of `config_t` that holds the locations. */
  class Table {
    var locations: seq<Location>

    ghost predicate Valid()
      reads this
    {
      NoDuplicates(locations) && forall loc :: loc in locations ==> Compiled(loc)
    }

    constructor ()
      ensures Valid() && locations == []
    {
      locations := [];
    }

    /** `cse_add_unique_location`: one comparison per field, in the order of the code. */
    method Add(loc: Location)
      requires Valid() && Compiled(loc)
      modifies this
      ensures Valid() && locations == AddUnique(old(locations), loc)
    {
      var i := 0;
      while i < |locations|
        invariant 0 <= i <= |locations| && loc !in locations[..i]
      {
        var l := locations[i];
        if loc.host == l.host && loc.port == l.port && loc.isExact == l.isExact
           && loc.prefix == l.prefix && loc.suffix == l.suffix {
          assert loc == locations[i];
          return;
        }
        i := i + 1;
      }
      locations := [loc] + locations;
    }

    /** `cse_add_location` */
    method AddPattern(host: string, prefix: string, pattern: string)
      requires Valid()
      modifies this
      ensures Valid() && locations == AddUnique(old(locations), Compile(host, prefix, pattern))
    {
      CompileIsCompiled(host, prefix, pattern);
      var loc := CompilePattern(host, prefix, pattern);
      Add(loc);
    }

    /** `cse_match_request`; a rewritten URI is copied into a buffer first. */
    method MatchRequest(host: string, port: int, uri: string) returns (r: bool)
      requires Valid()
      requires Find(uri, MARKER).Some? ==> |uri| < URI_BUFFER
      ensures r == RequestMatches(locations, host, port, uri)
    {
      var param := Find(uri, MARKER);
      var test := uri;
      if param.Some? {
        test := uri[..param.value];
      }
      r := MatchLocation(locations, host, port, test);
      if !r {
        r := Find(test, SECURITY_CHECK).Some?;
      }
    }
  }

  ghost predicate AnyMatches(list: seq<Location>, host: string, port: int, uri: string)
  {
    exists loc :: loc in list && Matches(loc, host, port, uri)
  }

  /** The URI without its session id. */
  function Stripped(uri: string): string
  {
    var param := Find(uri, MARKER);
    if param.Some? then uri[..param.value] else uri
  }

  ghost predicate RequestMatches(list: seq<Location>, host: string, port: int, uri: string)
  {
    AnyMatches(list, host, port, Stripped(uri)) || Find(Stripped(uri), SECURITY_CHECK).Some?
  }

  /** The list holds exactly what was added, each once. */
  lemma {:induction false} AddAllKeeps(adds: seq<Location>)
    ensures NoDuplicates(AddAll([], adds))
    ensures forall loc :: loc in AddAll([], adds) <==> loc in adds
  {
    if adds == [] {
    } else {
      var n := |adds| - 1;
      AddAllKeeps(adds[..n]);
      assert adds == adds[..n] + [adds[n]];
    }
  }

  /**
   * Matching is the disjunction over the set of all locations ever added: it depends neither on
   * their order nor on repetitions, and adding more never loses a match.
   */
  lemma MatchIsDisjunction(adds: seq<Location>, more: seq<Location>, host: string, port: int, uri: string)
    ensures AnyMatches(AddAll([], adds), host, port, uri) <==>
              exists loc :: loc in adds && Matches(loc, host, port, uri)
    ensures (forall loc :: loc in adds ==> loc in more) ==>
              (RequestMatches(AddAll([], adds), host, port, uri) ==> RequestMatches(AddAll([], more), host, port, uri))
    ensures (forall loc :: loc in adds <==> loc in more) ==>
              (RequestMatches(AddAll([], adds), host, port, uri) <==> RequestMatches(AddAll([], more), host, port, uri))
  {
    hide Matches, AddAll, NoDuplicates, Stripped;
    AddAllKeeps(adds);
    AddAllKeeps(more);
  }

  /** A pattern of the configuration: its server name and port, its web-app, and itself. */
  datatype Entry = Entry(name: string, port: Option<nat>, prefix: string, pattern: string)

  ghost predicate Readable(e: Entry)
  {
    (forall c :: c in e.name ==> c != ':') && Documented(e.pattern) && !Misread(e.prefix, e.pattern)
  }

  function CompileAll(entries: seq<Entry>): (locs: seq<Location>)
    ensures |locs| == |entries|
    ensures forall i :: 0 <= i < |locs| ==> locs[i] == CompileEntry(entries[i])
  {
    seq(|entries|, i requires 0 <= i < |entries| => CompileEntry(entries[i]))
  }

  function CompileEntry(e: Entry): Location { Compile(Given(e.name, e.port), e.prefix, e.pattern) }

  /** What a pattern of the configuration asks of a request, its URI without the session id. */
  ghost predicate Wants(e: Entry, host: string, port: int, uri: string)
  {
    && (e.name == "" || exists i: nat :: At(e.name, host, i))
    && (port == 0 || e.port == None || e.port == Some(0) || e.port == Some(port))
    && Meaning(App(e.prefix), e.pattern, uri)
  }

  lemma EntryMeaning(e: Entry, host: string, port: int, uri: string)
    requires Readable(e)
    ensures Matches(CompileEntry(e), host, port, uri) <==> Wants(e, host, port, uri)
  {
    hide Matches, Compile, Meaning, App, At, Misread, Documented, Given;
    PatternMeaning(e.name, e.port, e.prefix, e.pattern, host, port, uri);
  }

  /**
   * From the configuration to the answer: a request goes to the runners exactly if one of the
   * configured patterns wants it, or its URI holds the security check.
   */
  lemma ConfiguredMeaning(entries: seq<Entry>, host: string, port: int, uri: string)
    requires forall e :: e in entries ==> Readable(e)
    ensures RequestMatches(AddAll([], CompileAll(entries)), host, port, uri) <==>
            || (exists e :: e in entries && Wants(e, host, port, Stripped(uri)))
            || exists a, b :: Stripped(uri) == a + "/j_security_check" + b
  {
    hide Matches, AddAll, Readable, CompileEntry, Wants, Find, NoDuplicates, Stripped;
    var test, locs := Stripped(uri), CompileAll(entries);
    AddAllKeeps(locs);
    FoundIffThere(test, "/j_security_check");
    if AnyMatches(AddAll([], locs), host, port, test) {
      var loc :| loc in AddAll([], locs) && Matches(loc, host, port, test);
      var i :| 0 <= i < |locs| && locs[i] == loc;
      EntryMeaning(entries[i], host, port, test);
      assert entries[i] in entries;
    }
    if e :| e in entries && Wants(e, host, port, test) {
      var i :| 0 <= i < |entries| && entries[i] == e;
      EntryMeaning(e, host, port, test);
      assert locs[i] in AddAll([], locs);
    }
  }

  /** A URI ends, for dispatch, where its session id begins. */
  lemma StrippedEnds(uri: string, id: string)
    requires Find(uri, ";jsessionid=").None?
    ensures Stripped(uri) == Stripped(uri + ";jsessionid=" + id) == uri
  {
    MarkerFirst();
    hide Find;
    FindAppended(uri, ";jsessionid=", id);
    assert (uri + ";jsessionid=" + id)[..|uri|] == uri;
  }

  /**
   * Session rewriting is invisible to dispatch: whatever follows the marker, the rewritten URI
   * is dispatched like the plain one.
   */
  lemma RewritingIsInvisible(list: seq<Location>, host: string, port: int, uri: string, id: string)
    requires Find(uri, MARKER).None?
    ensures Stripped(uri + MARKER + id) == Stripped(uri)
    ensures RequestMatches(list, host, port, uri + MARKER + id) <==> RequestMatches(list, host, port, uri)
  {
    hide Find, AnyMatches;
    MarkerFirst();
    FindAppended(uri, MARKER, id);
    assert (uri + MARKER + id)[..|uri|] == uri;
  }
}
