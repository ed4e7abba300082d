/**
 * The company-name lookup of Ejemplos/depurador.py: each domain of the
 * input sheet is cleaned, its www/non-www variants are tried over http
 * and https until one answers 200, and the result is recorded in the
 * names column or in the list of failed domains.
 *
 * The network is the parameter `fetch` (the reply, or an exception, for a
 * URL) and the copyright extractor is the parameter `extract` (what it
 * makes of a page's text).
 */
module DomainSearch {
  import opened Wrappers
  import opened Text

  /** What `requests.get(url)` does: raise, or answer with a status code and a body. */
  datatype Reply = Raised | Status(code: int, body: string)

  /** What `extraer_nombre_copyright` does with a page: a (stripped) name, `None`, or an exception. */
  datatype Extraction = Found(name: string) | NotFound | Failed

  /** A cell of the first column of the sheet: text, or anything else (an empty cell, a number). */
  datatype Cell = Text(text: string) | Other

  /** Line 46: every `http://`, then every `https://`, is removed, then leading and trailing `/`. */
  function Clean(domain: string): (clean: string)
    ensures clean == [] || (clean[0] != '/' && clean[|clean| - 1] != '/')
    ensures |clean| <= |domain|
  {
    StripChar(RemoveAll(RemoveAll(domain, "http://"), "https://"), '/')
  }

  /** A domain written without a scheme and without slashes at its ends is already clean. */
  lemma CleanPlainDomain(domain: string)
    requires !Contains(domain, "http://") && !Contains(domain, "https://")
    requires domain == [] || (domain[0] != '/' && domain[|domain| - 1] != '/')
    ensures Clean(domain) == domain
  {
    RemoveAllAbsent(domain, "http://");
    RemoveAllAbsent(domain, "https://");
    StripCharUnchanged(domain, '/');
  }

  /**
   * A leading `http://` or `https://` is removed, and so is a trailing
   * `/`, from a domain that holds no scheme and no slash at its ends.
   */
  lemma CleanDropsScheme(d: string)
    requires !Contains(d, "http://") && !Contains(d, "https://")
    requires d == [] || (d[0] != '/' && d[|d| - 1] != '/')
    ensures Clean("http://" + d) == d && Clean("https://" + d) == d
    ensures Clean("http://" + d + "/") == d && Clean("https://" + d + "/") == d
  {
    NoSchemeBeforeSlash(d, "http://");
    NoSchemeBeforeSlash(d, "https://");
    var t := d + "/";
    assert "http://" + d + "/" == "http://" + t && "https://" + d + "/" == "https://" + t;
    SchemeDropped(d);
    SchemeDropped(t);
    StripCharUnchanged(d, '/');
    StripCharTrailing(d, '/');
  }

  /** `t` after either scheme loses the scheme, when `t` holds none. */
  lemma SchemeDropped(t: string)
    requires !Contains(t, "http://") && !Contains(t, "https://")
    ensures RemoveAll(RemoveAll("http://" + t, "http://"), "https://") == t
    ensures RemoveAll(RemoveAll("https://" + t, "http://"), "https://") == t
  {
    var h, hs := "http://", "https://";
    assert (h + t)[..7] == h && (h + t)[7..] == t;
    RemoveAllMatch(h + t, h);
    RemoveAllAbsent(t, h);
    RemoveAllAbsent(t, hs);
    forall i | 0 <= i < |hs| ensures !IsPrefix(h, (hs + t)[i..]) {
      if i == 0 {
        assert (hs + t)[4] != h[4];
      } else {
        assert (hs + t)[i..][0] == hs[i] != h[0];
      }
    }
    RemoveAllKeep(hs, t, h);
    assert (hs + t)[..8] == hs && (hs + t)[8..] == t;
    RemoveAllMatch(hs + t, hs);
  }

  /** A scheme ends in `//`, so a slash after a domain not ending in `/` cannot complete one. */
  lemma NoSchemeBeforeSlash(d: string, p: string)
    requires p == "http://" || p == "https://"
    requires !Contains(d, p) && (d == [] || d[|d| - 1] != '/')
    ensures !Contains(d + "/", p)
  {
    var t := d + "/";
    forall i | 0 <= i <= |t| - |p| ensures !OccursAt(t, p, i) {
      if i + |p| <= |d| {
        assert t[i..i + |p|] == d[i..i + |p|];
        assert !OccursAt(d, p, i);
      } else {
        assert t[i..i + |p|][|p| - 2] == d[|d| - 1] && p[|p| - 2] == '/';
      }
    }
  }

  /** The removal is a single pass: what it joins back together can be a scheme again. */
  lemma CleanSinglePass()
    ensures Clean("hthttp://tp://x") == "http://x"
    ensures Clean(Clean("hthttp://tp://x")) == "x"
  {
    var once := "http://x";
    SchemeInsideScheme("hthttp://tp://x");
    HttpIsNotHttps(once);
    StripCharUnchanged(once, '/');
    assert Clean("hthttp://tp://x") == once;
    SchemeAtStart(once);
    RemoveAllAbsent("x", "https://");
  }

  lemma SchemeAtStart(s: string)
    requires s == "http://x"
    ensures RemoveAll(s, "http://") == "x"
  {
    assert s[..7] == "http://" && s[7..] == "x";
    RemoveAllMatch(s, "http://");
  }

  lemma SchemeInsideScheme(s: string)
    requires s == "hthttp://tp://x"
    ensures RemoveAll(s, "http://") == "http://x"
  {
    var p := "http://";
    assert s[..7][2] != p[2] && s[1..][..7][0] != p[0];
    assert s[2..][..7] == p && s[2..][7..] == "tp://x";
    RemoveAllAbsent("tp://x", p);
    RemoveAllMatch(s[2..], p);
    RemoveAllSkip(s[1..], p);
    assert s[1..][1..] == s[2..];
    RemoveAllSkip(s, p);
    assert s[0] == 'h' && s[1..][0] == 't';
    assert ['h'] + (['t'] + "tp://x") == "http://x";
  }

  lemma HttpIsNotHttps(s: string)
    requires s == "http://x"
    ensures RemoveAll(s, "https://") == s
  {
    assert s[0..8][4] != "https://"[4];
    RemoveAllAbsent(s, "https://");
  }

  /** Lines 48-51: the cleaned domain, then the same domain with `www.` dropped or added. */
  function Variants(clean: string): (vs: seq<string>)
    ensures |vs| == 2 && vs[0] == clean
    ensures IsPrefix("www.", clean) ==> "www." + vs[1] == clean
    ensures !IsPrefix("www.", clean) ==> vs[1] == "www." + clean
  {
    if IsPrefix("www.", clean) then
      assert clean == clean[..4] + clean[4..];
      [clean, clean[4..]]
    else [clean, "www." + clean]
  }

  const Schemes: seq<string> := ["http://", "https://"]

  /** The URLs tried for a domain, in order: each variant over http, then over https. */
  function Candidates(domain: string): (urls: seq<string>)
    ensures var vs := Variants(Clean(domain));
      urls == ["http://" + vs[0], "https://" + vs[0], "http://" + vs[1], "https://" + vs[1]]
  {
    var vs := Variants(Clean(domain));
    [Schemes[0] + vs[0], Schemes[1] + vs[0], Schemes[0] + vs[1], Schemes[1] + vs[1]]
  }

  predicate Ok(r: Reply) {
    r.Status? && r.code == 200
  }

  /** The first URL of `urls` whose reply is a 200, with that reply. */
  function FirstSuccess(urls: seq<string>, fetch: string -> Reply): (found: Option<(string, Reply)>)
    ensures found.Some? ==> Ok(found.value.1) && found.value.1 == fetch(found.value.0)
  {
    if urls == [] then None
    else if Ok(fetch(urls[0])) then Some((urls[0], fetch(urls[0])))
    else FirstSuccess(urls[1..], fetch)
  }

  /**
   * The search fails exactly when no URL answers 200; otherwise it gives
   * a URL that does, with its reply, and every URL before it does not.
   */
  lemma {:induction false} FirstSuccessSpec(urls: seq<string>, fetch: string -> Reply)
    ensures FirstSuccess(urls, fetch).None? <==> forall k :: 0 <= k < |urls| ==> !Ok(fetch(urls[k]))
    ensures FirstSuccess(urls, fetch).Some? ==>
      exists k :: (0 <= k < |urls| && FirstSuccess(urls, fetch).value == (urls[k], fetch(urls[k]))
        && Ok(fetch(urls[k])) && forall j :: 0 <= j < k ==> !Ok(fetch(urls[j])))
  {
    if urls != [] && !Ok(fetch(urls[0])) {
      FirstSuccessSpec(urls[1..], fetch);
      assert forall k :: 0 <= k < |urls| - 1 ==> urls[1..][k] == urls[k + 1];
      var rest := FirstSuccess(urls[1..], fetch);
      if rest.Some? {
        var k :| 0 <= k < |urls[1..]| && rest.value == (urls[1..][k], fetch(urls[1..][k]))
          && Ok(fetch(urls[1..][k])) && forall j :: 0 <= j < k ==> !Ok(fetch(urls[1..][j]));
        assert rest.value == (urls[k + 1], fetch(urls[k + 1]));
      }
    }
  }

  /**
   * `intentar_con_variantes`: the first candidate URL that answers 200,
   * with its reply; other statuses and exceptions move on to the next.
   */
  method TryVariants(domain: string, fetch: string -> Reply) returns (found: Option<(string, Reply)>)
    ensures found == FirstSuccess(Candidates(domain), fetch)
  {
    var clean := StripChar(RemoveAll(RemoveAll(domain, "http://"), "https://"), '/');
    var variants := Variants(clean);
    ghost var urls := [Schemes[0] + variants[0], Schemes[1] + variants[0], Schemes[0] + variants[1], Schemes[1] + variants[1]];
    assert urls == Candidates(domain);
    for i := 0 to 2
      invariant forall k :: 0 <= k < 2 * i ==> !Ok(fetch(urls[k]))
    {
      for j := 0 to 2
        invariant forall k :: 0 <= k < 2 * i + j ==> !Ok(fetch(urls[k]))
      {
        var url := Schemes[j] + variants[i];
        var reply := fetch(url);
        assert urls[2 * i + j] == url;
        if reply.Status? && reply.code == 200 {
          FirstSuccessAt(urls, fetch, 2 * i + j);
          return Some((url, reply));
        }
      }
    }
    FirstSuccessSpec(urls, fetch);
    found := None;
  }

  /** When the URL at `n` is the first to answer 200, the search stops there. */
  lemma {:induction false} FirstSuccessAt(urls: seq<string>, fetch: string -> Reply, n: nat)
    requires n < |urls| && Ok(fetch(urls[n]))
    requires forall k :: 0 <= k < n ==> !Ok(fetch(urls[k]))
    ensures FirstSuccess(urls, fetch) == Some((urls[n], fetch(urls[n])))
  {
    if n > 0 {
      assert urls[1..][n - 1] == urls[n];
      assert forall k :: 0 <= k < n - 1 ==> urls[1..][k] == urls[k + 1];
      FirstSuccessAt(urls[1..], fetch, n - 1);
    }
  }

  /** Lines 67-86 for one domain: the name recorded, or `None` when the domain failed. */
  function Outcome(cell: Cell, fetch: string -> Reply, extract: string -> Extraction): (name: Option<string>)
    ensures name.Some? ==> name.value != ""
  {
    if cell.Other? then None
    else
      var found := FirstSuccess(Candidates(cell.text), fetch);
      if found.None? then None
      else
        var e := extract(found.value.1.body);
        if e.Found? && e.name != "" then Some(e.name) else None
  }

  /** The name the extractor finds in a page, when it finds a non-empty one. */
  function NameIn(body: string, extract: string -> Extraction): Option<string> {
    var e := extract(body);
    if e.Found? && e.name != "" then Some(e.name) else None
  }

  /**
   * A cell that is not text, or whose candidate URLs all fail, records no
   * name; otherwise the name is what the extractor finds in the body of
   * the first candidate that answers 200.
   */
  lemma OutcomeSpec(cell: Cell, fetch: string -> Reply, extract: string -> Extraction)
    ensures cell.Other? ==> Outcome(cell, fetch, extract).None?
    ensures cell.Text? && (forall k :: 0 <= k < 4 ==> !Ok(fetch(Candidates(cell.text)[k]))) ==>
      Outcome(cell, fetch, extract).None?
    ensures cell.Text? ==> forall k ::
      (0 <= k < 4 && Ok(fetch(Candidates(cell.text)[k]))
       && forall j :: 0 <= j < k ==> !Ok(fetch(Candidates(cell.text)[j])))
      ==> Outcome(cell, fetch, extract) == NameIn(fetch(Candidates(cell.text)[k]).body, extract)
  {
    if cell.Text? {
      var urls := Candidates(cell.text);
      FirstSuccessSpec(urls, fetch);
      forall k | 0 <= k < 4 && Ok(fetch(urls[k])) && (forall j :: 0 <= j < k ==> !Ok(fetch(urls[j])))
        ensures Outcome(cell, fetch, extract) == NameIn(fetch(urls[k]).body, extract)
      {
        FirstSuccessAt(urls, fetch, k);
      }
    }
  }

  /** The cells of `cells` whose recorded name is `None`, in order. */
  function FailedOf(cells: seq<Cell>, names: seq<Option<string>>): seq<Cell>
    requires |cells| == |names|
  {
    if cells == [] then []
    else
      var i := |cells| - 1;
      FailedOf(cells[..i], names[..i]) + (if names[i].None? then [cells[i]] else [])
  }

  /** How many names are `None`. */
  function Misses(names: seq<Option<string>>): nat {
    if names == [] then 0 else Misses(names[..|names| - 1]) + (if names[|names| - 1].None? then 1 else 0)
  }

  lemma {:induction false} FailedCount(cells: seq<Cell>, names: seq<Option<string>>)
    requires |cells| == |names|
    ensures |FailedOf(cells, names)| == Misses(names)
  {
    if cells != [] {
      FailedCount(cells[..|cells| - 1], names[..|names| - 1]);
    }
  }

  /** The two lists the loop fills: `nombres_empresa` and `dominios_fallidos`. */
  class Results {
    var names: seq<Option<string>>
    var failed: seq<Cell>
    ghost var seen: seq<Cell>

    /** One name per processed cell; the failed list holds exactly the cells whose name is `None`. */
    ghost predicate Valid()
      reads this
    {
      |names| == |seen| && failed == FailedOf(seen, names)
    }

    constructor ()
      ensures Valid() && names == [] && failed == [] && seen == []
    {
      names := [];
      failed := [];
      seen := [];
    }

    /** Lines 69-86: record one processed cell. */
    method Record(cell: Cell, name: Option<string>)
      requires Valid()
      modifies this
      ensures Valid()
      ensures names == old(names) + [name] && seen == old(seen) + [cell]
      ensures failed == old(failed) + (if name.None? then [cell] else [])
    {
      names := names + [name];
      if name.None? {
        failed := failed + [cell];
      }
      seen := seen + [cell];
      assert seen[..|seen| - 1] == old(seen) && names[..|names| - 1] == old(names);
    }

    /** Lines 67-86 for one cell: look it up, then record what came of it. */
    method Process(cell: Cell, fetch: string -> Reply, extract: string -> Extraction)
      requires Valid()
      modifies this
      ensures Valid()
      ensures names == old(names) + [Outcome(cell, fetch, extract)] && seen == old(seen) + [cell]
      ensures failed == old(failed) + (if Outcome(cell, fetch, extract).None? then [cell] else [])
    {
      if cell.Other? {
        Record(cell, None);
        return;
      }
      var found := TryVariants(cell.text, fetch);
      if found.None? {
        Record(cell, None);
      } else {
        var e := extract(found.value.1.body);
        if e.Found? && e.name != "" {
          Record(cell, Some(e.name));
        } else {
          Record(cell, None);
        }
      }
    }
  }

  /**
   * The main loop: one name per domain, in order, and the failed list
   * holds each domain whose name is `None`, so it is as long as the
   * number of misses.
   */
  method ProcessDomains(domains: seq<Cell>, fetch: string -> Reply, extract: string -> Extraction) returns (r: Results)
    ensures fresh(r) && r.Valid() && r.seen == domains
    ensures |r.names| == |domains| && forall k :: 0 <= k < |domains| ==> r.names[k] == Outcome(domains[k], fetch, extract)
    ensures |r.failed| == Misses(r.names)
  {
    r := new Results();
    for k := 0 to |domains|
      invariant r.Valid() && r.seen == domains[..k] && r.names == Outcomes(domains[..k], fetch, extract)
    {
      r.Process(domains[k], fetch, extract);
      OutcomesStep(domains, k, fetch, extract);
    }
    assert domains[..|domains|] == domains;
    OutcomesIndex(domains, fetch, extract);
    FailedCount(r.seen, r.names);
  }

  /** The outcome of each domain, in order. */
  function Outcomes(domains: seq<Cell>, fetch: string -> Reply, extract: string -> Extraction): seq<Option<string>> {
    if domains == [] then []
    else Outcomes(domains[..|domains| - 1], fetch, extract) + [Outcome(domains[|domains| - 1], fetch, extract)]
  }

  lemma OutcomesStep(domains: seq<Cell>, k: nat, fetch: string -> Reply, extract: string -> Extraction)
    requires k < |domains|
    ensures domains[..k + 1] == domains[..k] + [domains[k]]
    ensures Outcomes(domains[..k + 1], fetch, extract) == Outcomes(domains[..k], fetch, extract) + [Outcome(domains[k], fetch, extract)]
  {
    assert domains[..k + 1][..k] == domains[..k];
  }

  lemma {:induction false} OutcomesIndex(domains: seq<Cell>, fetch: string -> Reply, extract: string -> Extraction)
    ensures |Outcomes(domains, fetch, extract)| == |domains|
    ensures forall k :: 0 <= k < |domains| ==> Outcomes(domains, fetch, extract)[k] == Outcome(domains[k], fetch, extract)
  {
    if domains != [] {
      var i := |domains| - 1;
      OutcomesIndex(domains[..i], fetch, extract);
      var before := Outcomes(domains[..i], fetch, extract);
      assert Outcomes(domains, fetch, extract) == before + [Outcome(domains[i], fetch, extract)];
      forall k | 0 <= k < i ensures Outcomes(domains, fetch, extract)[k] == Outcome(domains[k], fetch, extract) {
        assert domains[..i][k] == domains[k];
      }
    }
  }
}
