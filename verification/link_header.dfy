/**
 * Reading the pagination cursors out of the `Link` response header of the
 * audit-log API (RFC 8288, section 3). The forwarder does not parse the RFC
 * grammar: it cuts the header on commas, keeps the entries that mention
 * `rel="prev"` or `rel="next"`, takes the URL between `<` and `>` and looks
 * up one query parameter of it. This module models those cutting rules.
 */
module LinkHeader {
  import opened Wrappers
  import opened Text

  const PREV_TAG := "rel=\"prev\""
  const NEXT_TAG := "rel=\"next\""
  const SCHEME_MARK := "://"

  /** Indexing the missing key's empty value list (`queries[key][0]`) panics. */
  datatype LinkError = MissingParam(key: string)

  /** The backward and forward cursors a header yields; "" is "none". */
  datatype Cursors = Cursors(before: string, after: string)

  /** The text after the first `<` of `link`, up to any later `<`. */
  function Bracketed(link: string): string
    requires Occurs(link, '<')
  {
    TakeUntil(AfterFirst(link, '<'), '<')
  }

  /**
   * `extract_url`: the URL of one header entry. It is "" unless the entry
   * has a `<` and the text after the first one (up to any later `<`)
   * contains "://"; then it is that text up to its first `>`.
   */
  function ExtractUrl(link: string): string
  {
    var parts := Split(link, '<');
    if |parts| > 1 && Contains(parts[1], SCHEME_MARK) then Split(parts[1], '>')[0] else ""
  }

  /**
   * What `extract_url` returns: "" unless the entry has a `<` and the text
   * after the first one (up to any later `<`) contains "://"; then the
   * longest prefix of that text that has no `>`.
   */
  lemma ExtractUrlSpec(link: string)
    ensures !Occurs(link, '<') ==> ExtractUrl(link) == ""
    ensures Occurs(link, '<') && !Contains(Bracketed(link), SCHEME_MARK) ==> ExtractUrl(link) == ""
    ensures Occurs(link, '<') && Contains(Bracketed(link), SCHEME_MARK) ==>
              var url, text := ExtractUrl(link), Bracketed(link);
              && url <= text
              && '>' !in url && '<' !in url
              && (|url| == |text| || text[|url|] == '>')
  {
    if Occurs(link, '<') {
      var text := Bracketed(link);
      TakeUntilFree(AfterFirst(link, '<'), '<');
      TakeUntilFree(text, '>');
    }
  }

  /**
   * The query component of `url`: everything after its first `?`, or ""
   * when it has none (what `url.Parse(url).RawQuery` holds, leaving
   * fragments aside).
   */
  function RawQuery(url: string): string
  {
    if Occurs(url, '?') then AfterFirst(url, '?') else ""
  }

  /** Whether the query segment `pair` names `key` (its text before the first `=`). */
  predicate Binds(pair: string, key: string)
  {
    pair != "" && TakeUntil(pair, '=') == key
  }

  /** The value a query segment gives its key: the text after the first `=`. */
  function ValueOf(pair: string): string
  {
    if Occurs(pair, '=') then AfterFirst(pair, '=') else ""
  }

  /**
   * The values `url.ParseQuery` collects for `key` from the `&`-separated
   * segments of a query, in the order they appear.
   */
  function Lookup(pairs: seq<string>, key: string): seq<string>
  {
    if pairs == [] then []
    else if Binds(pairs[0], key) then [ValueOf(pairs[0])] + Lookup(pairs[1..], key)
    else Lookup(pairs[1..], key)
  }

  /**
   * The lookup finds nothing exactly when no segment names `key`; otherwise
   * its first value is that of the first segment naming `key`.
   */
  lemma {:induction false} LookupFirst(pairs: seq<string>, key: string)
    ensures (Lookup(pairs, key) == []) == (forall i :: 0 <= i < |pairs| ==> !Binds(pairs[i], key))
    ensures Lookup(pairs, key) != [] ==>
              exists i :: 0 <= i < |pairs| && Binds(pairs[i], key) && Lookup(pairs, key)[0] == ValueOf(pairs[i])
                          && forall j :: 0 <= j < i ==> !Binds(pairs[j], key)
  {
    if pairs != [] {
      var tail := pairs[1..];
      LookupFirst(tail, key);
      assert forall i :: 1 <= i < |pairs| ==> pairs[i] == tail[i - 1];
      if Binds(pairs[0], key) {
        assert Lookup(pairs, key)[0] == ValueOf(pairs[0]);
      } else if Lookup(tail, key) != [] {
        var i :| 0 <= i < |tail| && Binds(tail[i], key) && Lookup(tail, key)[0] == ValueOf(tail[i])
                 && forall j :: 0 <= j < i ==> !Binds(tail[j], key);
        assert Binds(pairs[i + 1], key) && Lookup(pairs, key)[0] == ValueOf(pairs[i + 1]);
        assert forall j :: 0 <= j < i + 1 ==> !Binds(pairs[j], key);
      }
    }
  }

  /** The query segments of the URL of one header entry. */
  function QueryPairs(link: string): seq<string>
  {
    Split(RawQuery(ExtractUrl(link)), '&')
  }

  /**
   * `get_param_from_link`: the first value of the query parameter `key`
   * in the entry's URL. When no segment names `key` the source indexes an
   * empty list and panics, which is the `MissingParam` error here.
   */
  function ParamFromLink(link: string, key: string): Result<string, LinkError>
  {
    var values := Lookup(QueryPairs(link), key);
    if values == [] then Err(MissingParam(key)) else Ok(values[0])
  }

  /**
   * `get_param_from_link` fails exactly when no query segment of the
   * entry's URL names `key`, and otherwise yields the value of the first
   * segment that does.
   */
  lemma ParamFromLinkSpec(link: string, key: string)
    ensures var pairs, r := QueryPairs(link), ParamFromLink(link, key);
            && (r.Err? <==> forall i :: 0 <= i < |pairs| ==> !Binds(pairs[i], key))
            && (r.Err? ==> r.error == MissingParam(key))
            && (r.Ok? ==>
                  exists i :: 0 <= i < |pairs| && Binds(pairs[i], key) && r.value == ValueOf(pairs[i])
                              && forall j :: 0 <= j < i ==> !Binds(pairs[j], key))
  {
    LookupFirst(QueryPairs(link), key);
  }

  /** An entry without a usable URL has no query parameter at all: looking one up fails. */
  lemma ParamWithoutUrlFails(link: string, key: string)
    requires ExtractUrl(link) == ""
    ensures ParamFromLink(link, key) == Err(MissingParam(key))
  {
    assert RawQuery(ExtractUrl(link)) == "";
    assert QueryPairs(link) == [""];
    assert !Binds("", key) && QueryPairs(link)[1..] == [];
    assert Lookup(QueryPairs(link), key) == [];
  }

  /** One round of the loop of `get_before_after` over the header's entries. */
  function Step(link: string, acc: Cursors): Result<Cursors, LinkError>
  {
    var before :- if Contains(link, PREV_TAG) then ParamFromLink(link, "before") else Ok(acc.before);
    var after :- if Contains(link, NEXT_TAG) then ParamFromLink(link, "after") else Ok(acc.after);
    Ok(Cursors(before, after))
  }

  /** The loop of `get_before_after`, from the entries still to visit and the cursors so far. */
  function Scan(links: seq<string>, acc: Cursors): Result<Cursors, LinkError>
    decreases |links|
  {
    if links == [] then Ok(acc)
    else
      var next :- Step(links[0], acc);
      Scan(links[1..], next)
  }

  /** What `get_before_after` returns for a header (or panics with). */
  function ParseLinkHeader(header: string): Result<Cursors, LinkError>
  {
    Scan(Split(header, ','), Cursors("", ""))
  }

  /** One unrolling of `Scan`. */
  lemma ScanUnfold(links: seq<string>, acc: Cursors)
    requires links != []
    ensures Scan(links, acc) ==
              match Step(links[0], acc)
              case Err(e) => Err(e)
              case Ok(next) => Scan(links[1..], next)
  {
  }

  /** `get_before_after`, the loop over the comma-separated entries of a header. */
  method GetBeforeAfter(header: string) returns (r: Result<Cursors, LinkError>)
    ensures r == ParseLinkHeader(header)
  {
    var links := Split(header, ',');
    var before, after := "", "";
    var i := 0;
    ghost var outcome := Scan(links, Cursors(before, after));
    assert links[i..] == links;
    assert Scan(links[i..], Cursors(before, after)) == outcome;
    while i < |links|
      invariant 0 <= i <= |links|
      invariant Scan(links[i..], Cursors(before, after)) == outcome
    {
      var link := links[i];
      assert links[i..][0] == link && links[i..][1..] == links[i + 1..];
      ghost var step := Step(link, Cursors(before, after));
      ScanUnfold(links[i..], Cursors(before, after));
      if Contains(link, PREV_TAG) {
        var param := ParamFromLink(link, "before");
        if param.Err? {
          return Err(param.error);
        }
        before := param.value;
      }
      if Contains(link, NEXT_TAG) {
        var param := ParamFromLink(link, "after");
        if param.Err? {
          return Err(param.error);
        }
        after := param.value;
      }
      assert step == Ok(Cursors(before, after));
      assert Scan(links[i + 1..], Cursors(before, after)) == outcome;
      i := i + 1;
    }
    return Ok(Cursors(before, after));
  }

  /** The index of the last entry mentioning `tag`, if any. */
  function LastWith(links: seq<string>, tag: string): (k: Option<nat>)
    ensures k.Some? ==>
              k.value < |links| && Contains(links[k.value], tag)
              && forall j :: k.value < j < |links| ==> !Contains(links[j], tag)
    ensures k.None? ==> forall j :: 0 <= j < |links| ==> !Contains(links[j], tag)
    decreases |links|
  {
    if links == [] then None
    else if Contains(links[|links| - 1], tag) then Some(|links| - 1)
    else
      var k := LastWith(links[..|links| - 1], tag);
      assert forall j :: 0 <= j < |links| - 1 ==> links[j] == links[..|links| - 1][j];
      k
  }

  /** How the last tagged entry of a list relates to that of its tail. */
  lemma LastWithTail(links: seq<string>, tag: string)
    requires links != []
    ensures LastWith(links, tag) ==
              match LastWith(links[1..], tag)
              case Some(j) => Some(j + 1)
              case None => if Contains(links[0], tag) then Some(0) else None
  {
    var k, t := LastWith(links, tag), LastWith(links[1..], tag);
    assert forall j :: 1 <= j < |links| ==> links[j] == links[1..][j - 1];
    match t
    case Some(j) =>
      assert Contains(links[j + 1], tag);
      assert k.Some? && k.value == j + 1;
    case None =>
      if Contains(links[0], tag) {
        assert k.Some? && k.value == 0;
      } else {
        assert k.None?;
      }
  }

  /** An entry makes the loop fail when it carries a tag but lacks that tag's parameter. */
  predicate Fails(link: string)
  {
    || (Contains(link, PREV_TAG) && ParamFromLink(link, "before").Err?)
    || (Contains(link, NEXT_TAG) && ParamFromLink(link, "after").Err?)
  }

  /** The loop fails exactly when one of the entries fails; the cursors so far do not matter. */
  lemma {:induction false} ScanFails(links: seq<string>, acc: Cursors)
    ensures Scan(links, acc).Err? <==> exists i :: 0 <= i < |links| && Fails(links[i])
    decreases |links|
  {
    if links != [] {
      assert forall i :: 1 <= i < |links| ==> links[i] == links[1..][i - 1];
      var step := Step(links[0], acc);
      assert step.Err? <==> Fails(links[0]);
      if step.Ok? {
        ScanFails(links[1..], step.value);
        if exists i :: 0 <= i < |links| && Fails(links[i]) {
          var i :| 0 <= i < |links| && Fails(links[i]);
          assert i > 0 && Fails(links[1..][i - 1]);
        }
      }
    }
  }

  /**
   * When several entries carry the same relation the last one wins; a
   * relation no entry carries keeps the cursor it had before the loop.
   */
  lemma {:induction false} ScanLastWins(links: seq<string>, acc: Cursors)
    requires Scan(links, acc).Ok?
    ensures match LastWith(links, NEXT_TAG)
            case None => Scan(links, acc).value.after == acc.after
            case Some(k) => ParamFromLink(links[k], "after") == Ok(Scan(links, acc).value.after)
    ensures match LastWith(links, PREV_TAG)
            case None => Scan(links, acc).value.before == acc.before
            case Some(k) => ParamFromLink(links[k], "before") == Ok(Scan(links, acc).value.before)
    decreases |links|
  {
    if links != [] {
      var next := Step(links[0], acc).value;
      ScanLastWins(links[1..], next);
      LastWithTail(links, NEXT_TAG);
      LastWithTail(links, PREV_TAG);
    }
  }

  /**
   * What a whole header yields: it fails exactly when some entry carries a
   * tag without the matching parameter; otherwise `after` comes from the
   * last `rel="next"` entry and `before` from the last `rel="prev"` entry,
   * and each is "" when no entry carries its tag.
   */
  lemma ParseLinkHeaderCursors(header: string)
    ensures ParseLinkHeader(header).Err? <==>
              exists i :: 0 <= i < |Split(header, ',')| && Fails(Split(header, ',')[i])
    ensures ParseLinkHeader(header).Ok? ==>
              var links, r := Split(header, ','), ParseLinkHeader(header).value;
              && (match LastWith(links, NEXT_TAG)
                  case None => r.after == ""
                  case Some(k) => ParamFromLink(links[k], "after") == Ok(r.after))
              && (match LastWith(links, PREV_TAG)
                  case None => r.before == ""
                  case Some(k) => ParamFromLink(links[k], "before") == Ok(r.before))
  {
    ScanFails(Split(header, ','), Cursors("", ""));
    if Scan(Split(header, ','), Cursors("", "")).Ok? {
      ScanLastWins(Split(header, ','), Cursors("", ""));
    }
  }
}
