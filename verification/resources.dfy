/**
 Upstream resource references and the id and image the service derives from them.

 The upstream API refers to a Pokémon or a species by a `{name, url}` pair whose
 URL ends in the numeric id (`.../pokemon/25/`). The service takes the last
 non-empty `/`-segment of the URL, parses it with `parseInt(_, 10)` for the id,
 and templates the segment itself into an image URL. When the URL has no such
 segment, `pop()` yields `undefined`: the id is `NaN` and the template prints
 `undefined`.
 */
module Resources {

  import opened Results
  import opened Text

  datatype NamedResource = NamedResource(name: string, url: string)

  /** A Pokémon as the list endpoint serves it: `{name, id, image}`. */
  datatype Pokemon = Pokemon(name: string, id: JsNumber, image: string)

  /** A URL whose last non-empty segment is a run of digits, as upstream URLs are. */
  predicate ValidResourceUrl(url: string) {
    var segment := LastSegment(url);
    segment.Some? && IsDigits(segment.value)
  }

  /** The text `split('/').filter(Boolean).pop()` yields, as a template prints it. */
  function IdSegment(url: string): (segment: string)
    ensures LastSegment(url).None? ==> segment == "undefined"
    ensures LastSegment(url).Some? ==> segment == LastSegment(url).value
  {
    match LastSegment(url)
    case Some(s) => s
    case None => "undefined"
  }

  /** `parseInt(segment, 10)`. */
  function ResourceId(url: string): JsNumber {
    ParseInt(IdSegment(url))
  }

  /** `${base}/${segment}.png`: the segment is used as written, not the parsed id. */
  function ImageUrl(base: string, url: string): string {
    base + "/" + IdSegment(url) + ".png"
  }

  /** The URL the upstream API uses for the resource with id `id` under `collection`. */
  function ResourceUrl(collection: string, id: nat): string {
    collection + "/" + NatToString(id) + "/"
  }

  /**
   Extracting the id from an upstream-style URL gives back the id it was built
   from, and the image URL ends in `/<id>.png`.
   */
  lemma ResourceUrlRoundTrip(collection: string, id: nat, base: string)
    ensures ValidResourceUrl(ResourceUrl(collection, id))
    ensures ResourceId(ResourceUrl(collection, id)) == Num(id)
    ensures ImageUrl(base, ResourceUrl(collection, id)) == base + "/" + NatToString(id) + ".png"
  {
    var digits := NatToString(id);
    assert '/' !in digits by {
      assert forall i :: 0 <= i < |digits| ==> IsDigit(digits[i]);
    }
    var prefix := collection + "/";
    assert ResourceUrl(collection, id) == prefix + digits + "/";
    SegmentOfPath(prefix, digits, "/");
    ParseIntDigits(digits);
    ParsePrinted(id);
  }

  /** The list entry built from one upstream `{name, url}` record. */
  function ToPokemon(r: NamedResource, officialImageUrl: string): (p: Pokemon)
    ensures p.name == r.name
    ensures LastSegment(r.url).Some? ==>
              && p.id == ParseInt(LastSegment(r.url).value)
              && p.image == officialImageUrl + "/" + LastSegment(r.url).value + ".png"
    ensures LastSegment(r.url).None? ==>
              p.id == NaN && p.image == officialImageUrl + "/" + "undefined" + ".png"
    ensures ValidResourceUrl(r.url) ==> p.id == Num(ParseDecimal(LastSegment(r.url).value))
  {
    ParseIntOfUndefined();
    assert ValidResourceUrl(r.url) ==> ResourceId(r.url) == Num(ParseDecimal(LastSegment(r.url).value)) by {
      if ValidResourceUrl(r.url) {
        ParseIntDigits(LastSegment(r.url).value);
      }
    }
    Pokemon(r.name, ResourceId(r.url), ImageUrl(officialImageUrl, r.url))
  }

  /**
   `list.map(...)` in the list endpoint: one entry per upstream record, in the
   same order, each keeping its record's name.
   */
  function ToPokemonList(list: seq<NamedResource>, officialImageUrl: string): (ps: seq<Pokemon>)
    ensures |ps| == |list|
    ensures forall i :: 0 <= i < |list| ==> ps[i] == ToPokemon(list[i], officialImageUrl)
  {
    seq(|list|, i requires 0 <= i < |list| => ToPokemon(list[i], officialImageUrl))
  }

  /**
   For upstream-style URLs the mapped list carries exactly the ids in the URLs
   and their artwork under `officialImageUrl`, names and order unchanged.
   */
  lemma ToPokemonListOfIds(collection: string, names: seq<string>, ids: seq<nat>, officialImageUrl: string)
    requires |names| == |ids|
    ensures var list := seq(|ids|, i requires 0 <= i < |ids| => NamedResource(names[i], ResourceUrl(collection, ids[i])));
            var ps := ToPokemonList(list, officialImageUrl);
            forall i :: 0 <= i < |ps| ==>
              ps[i] == Pokemon(names[i], Num(ids[i]), officialImageUrl + "/" + NatToString(ids[i]) + ".png")
  {
    forall i | 0 <= i < |ids|
      ensures ResourceId(ResourceUrl(collection, ids[i])) == Num(ids[i])
      ensures ImageUrl(officialImageUrl, ResourceUrl(collection, ids[i])) == officialImageUrl + "/" + NatToString(ids[i]) + ".png"
    {
      ResourceUrlRoundTrip(collection, ids[i], officialImageUrl);
    }
  }

  /** A URL without a non-empty segment gives id `NaN` and the image `<base>/undefined.png`. */
  lemma UrlWithoutSegment(url: string, base: string)
    requires AllOf(url, '/')
    ensures ResourceId(url) == NaN
    ensures ImageUrl(base, url) == base + "/" + "undefined" + ".png"
  {
    assert LastSegment(url) == None;
    ParseIntOfUndefined();
  }

  /**
   A segment that starts with digits and goes on with something else reads as
   the value of its digits (`"25abc"` is 25), while the image keeps the whole
   segment.
   */
  lemma SegmentWithTrailingText(collection: string, digits: string, rest: string, base: string)
    requires IsDigits(digits) && rest != "" && !IsDigit(rest[0]) && '/' !in rest
    ensures ResourceId(collection + "/" + digits + rest) == Num(ParseDecimal(digits))
    ensures ImageUrl(base, collection + "/" + digits + rest) == base + "/" + (digits + rest) + ".png"
  {
    var segment := digits + rest;
    assert '/' !in segment by {
      assert forall i :: 0 <= i < |digits| ==> IsDigit(digits[i]);
      assert forall c :: c in segment ==> c in digits || c in rest;
    }
    var prefix := collection + "/";
    var url := collection + "/" + digits + rest;
    assert prefix + segment + "" == url;
    SegmentOfPath(prefix, segment, "");
    assert IdSegment(url) == segment;
    ParseIntIgnoresTail(digits, rest);
  }
}
