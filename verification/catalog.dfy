/**
 The backend's catalog endpoints: the Pokémon list and one Pokémon's full
 details, both served through the read-through cache.

 The upstream API is a set of oracles from request URL to response, one per
 kind of resource; the model records which URLs each request asked for, so
 that "a cache hit asks the upstream nothing" is a statement about the result.
 */
module Catalog {

  import opened Results
  import opened Text
  import opened Resources
  import opened Evolution
  import opened Cache

  /** The service's configuration; a missing setting is the empty string. */
  datatype Config = Config(
    pokeApiUrl: string,
    listCacheKey: string,
    imageUrl: string,
    officialImageUrl: string)

  datatype AbilitySlot = AbilitySlot(ability: NamedResource)

  datatype TypeSlot = TypeSlot(typeRef: NamedResource)

  /** `sprites.front_default` and `sprites.other['official-artwork'].front_default`; `None` when absent or null. */
  datatype Sprites = Sprites(frontDefault: Option<string>, officialArtwork: Option<string>)

  /** The upstream `/pokemon/{name}` record, reduced to the fields the service reads. */
  datatype RawDetail = RawDetail(
    id: int,
    name: string,
    abilities: seq<AbilitySlot>,
    types: seq<TypeSlot>,
    sprites: Sprites,
    species: NamedResource)

  /** The upstream species record: the URL of its evolution chain, if it has one. */
  datatype SpeciesRecord = SpeciesRecord(evolutionChainUrl: Option<string>)

  /** The upstream evolution-chain record. */
  datatype ChainRecord = ChainRecord(chain: Option<ChainNode>)

  /** The upstream API: what each request URL answers. */
  datatype Upstream = Upstream(
    lists: string -> Fetch<seq<NamedResource>>,
    pokemon: string -> Fetch<RawDetail>,
    species: string -> Fetch<SpeciesRecord>,
    chains: string -> Fetch<ChainRecord>)

  /** The details endpoint's answer. */
  datatype PokemonDetail = PokemonDetail(
    id: int,
    name: string,
    abilities: seq<string>,
    types: seq<string>,
    image: Option<string>,
    evolution: seq<EvolutionStep>)

  /** What the cache holds: a list under the list key, a detail under a detail key. */
  datatype Payload = ListPayload(pokemon: seq<Pokemon>) | DetailPayload(detail: PokemonDetail)

  // ---------------------------------------------------------------------------
  // The list endpoint
  // ---------------------------------------------------------------------------

  function ListUrl(cfg: Config): string {
    cfg.pokeApiUrl + "/pokemon?limit=150"
  }

  /**
   `fetchPokemonList` followed by the mapping to `{name, id, image}`. An upstream
   failure is not translated: it reaches the caller as it is.
   */
  function FetchList(cfg: Config, up: Upstream): (a: Attempt<Payload>)
    ensures a.requests == [ListUrl(cfg)]
    ensures up.lists(ListUrl(cfg)).Failed? ==>
              a.result == Err(UpstreamFailed(up.lists(ListUrl(cfg)).failure))
    ensures up.lists(ListUrl(cfg)).Received? ==>
              a.result == Ok(ListPayload(ToPokemonList(up.lists(ListUrl(cfg)).value, cfg.officialImageUrl)))
  {
    var url := ListUrl(cfg);
    match up.lists(url)
    case Failed(f) => Attempt(Err(UpstreamFailed(f)), [url])
    case Received(list) => Attempt(Ok(ListPayload(ToPokemonList(list, cfg.officialImageUrl))), [url])
  }

  /**
   `getPokemonListWithDetails`: a stored list is served unchanged and the
   upstream is not asked; otherwise the upstream list is fetched, mapped,
   written back under the list key with the service's TTL, and served.
   */
  function GetPokemonListWithDetails(cfg: Config, store: Store<Payload>, faults: Faults, up: Upstream): (s: Served<Payload>)
    ensures !faults.getFails && cfg.listCacheKey in store ==>
              s == Served(store, Ok(store[cfg.listCacheKey].value), [])
    ensures faults.getFails || cfg.listCacheKey !in store ==>
              && s.requests == [ListUrl(cfg)]
              && match up.lists(ListUrl(cfg))
                 case Failed(f) =>
                   s.result == Err(UpstreamFailed(f)) && s.store == store
                 case Received(list) =>
                   var served := ListPayload(ToPokemonList(list, cfg.officialImageUrl));
                   && s.result == Ok(served)
                   && s.store == (if faults.setFails then store
                                  else store[cfg.listCacheKey := Entry(served, 86400000)])
  {
    ReadThrough(store, cfg.listCacheKey, faults, FetchList(cfg, up))
  }

  // ---------------------------------------------------------------------------
  // The details endpoint
  // ---------------------------------------------------------------------------

  function DetailUrl(cfg: Config, name: string): string {
    cfg.pokeApiUrl + "/pokemon/" + Lower(name)
  }

  /** The cache key of a Pokémon's details: one entry per lower-cased name. */
  function DetailKey(name: string): string {
    "pokemon_detail_" + Lower(name)
  }

  /** Two names share a details URL exactly when they lower-case alike. */
  lemma DetailUrlsAgree(cfg: Config, a: string, b: string)
    ensures DetailUrl(cfg, a) == DetailUrl(cfg, b) <==> Lower(a) == Lower(b)
  {
    var prefix := cfg.pokeApiUrl + "/pokemon/";
    if DetailUrl(cfg, a) == DetailUrl(cfg, b) {
      assert DetailUrl(cfg, a)[|prefix|..] == Lower(a);
      assert DetailUrl(cfg, b)[|prefix|..] == Lower(b);
    }
  }

  /** Two names share a cache key exactly when they lower-case alike. */
  lemma DetailKeysAgree(a: string, b: string)
    ensures DetailKey(a) == DetailKey(b) <==> Lower(a) == Lower(b)
  {
    var prefix := "pokemon_detail_";
    if DetailKey(a) == DetailKey(b) {
      assert DetailKey(a)[|prefix|..] == Lower(a);
      assert DetailKey(b)[|prefix|..] == Lower(b);
    }
  }

  /**
   `fetchPokemonDetails`: the lower-cased name is requested, and EVERY upstream
   failure, whatever its status, becomes `NotFound` naming the name as given.
   */
  function FetchPokemonDetails(cfg: Config, name: string, up: Upstream): (a: Attempt<RawDetail>)
    ensures a.requests == [cfg.pokeApiUrl + "/pokemon/" + Lower(name)]
    ensures a.result.Ok? <==> up.pokemon(DetailUrl(cfg, name)).Received?
    ensures a.result.Ok? ==> a.result.value == up.pokemon(DetailUrl(cfg, name)).value
    ensures a.result.Err? ==> a.result.error == NotFound("Pokemon '" + name + "' not found")
  {
    var url := DetailUrl(cfg, name);
    match up.pokemon(url)
    case Received(d) => Attempt(Ok(d), [url])
    case Failed(_) => Attempt(Err(NotFound("Pokemon '" + name + "' not found")), [url])
  }

  /**
   `fetchEvolutionChain`: the species record, then the chain it points to, then
   the flattened chain. Upstream failures propagate untranslated; a species
   without an evolution chain fails on the absent field.
   */
  function FetchEvolutionChain(imageUrl: string, speciesUrl: string, up: Upstream): (a: Attempt<seq<EvolutionStep>>)
    ensures |a.requests| >= 1 && a.requests[0] == speciesUrl
    ensures up.species(speciesUrl).Failed? ==>
              a == Attempt(Err(UpstreamFailed(up.species(speciesUrl).failure)), [speciesUrl])
    ensures up.species(speciesUrl).Received? && up.species(speciesUrl).value.evolutionChainUrl.None? ==>
              a == Attempt(Err(MissingField("evolution_chain")), [speciesUrl])
    ensures up.species(speciesUrl).Received? && up.species(speciesUrl).value.evolutionChainUrl.Some? ==>
              var chainUrl := up.species(speciesUrl).value.evolutionChainUrl.value;
              && a.requests == [speciesUrl, chainUrl]
              && (up.chains(chainUrl).Failed? ==> a.result == Err(UpstreamFailed(up.chains(chainUrl).failure)))
              && (up.chains(chainUrl).Received? ==>
                    a.result == Ok(EvolutionSteps(up.chains(chainUrl).value.chain, imageUrl)))
  {
    match up.species(speciesUrl)
    case Failed(f) => Attempt(Err(UpstreamFailed(f)), [speciesUrl])
    case Received(species) =>
      match species.evolutionChainUrl
      case None => Attempt(Err(MissingField("evolution_chain")), [speciesUrl])
      case Some(chainUrl) =>
        match up.chains(chainUrl)
        case Failed(f) => Attempt(Err(UpstreamFailed(f)), [speciesUrl, chainUrl])
        case Received(record) =>
          Attempt(Ok(EvolutionSteps(record.chain, imageUrl)), [speciesUrl, chainUrl])
  }

  /** JavaScript truthiness of an optional string: present and non-empty. */
  predicate Truthy(s: Option<string>) {
    s.Some? && s.value != ""
  }

  /**
   The image of a detail: the official artwork when it is truthy, otherwise the
   default sprite, whatever that is.
   */
  function DetailImage(sprites: Sprites): (image: Option<string>)
    ensures Truthy(sprites.officialArtwork) ==> image == sprites.officialArtwork
    ensures !Truthy(sprites.officialArtwork) ==> image == sprites.frontDefault
  {
    if Truthy(sprites.officialArtwork) then sprites.officialArtwork else sprites.frontDefault
  }

  /**
   The detail the endpoint serves: id and name from the upstream record, the
   ability and type names in upstream order, the preferred image, and the
   flattened evolution chain.
   */
  function ComposeDetail(d: RawDetail, evolution: seq<EvolutionStep>): (p: PokemonDetail)
    ensures p.id == d.id && p.name == d.name && p.evolution == evolution
    ensures |p.abilities| == |d.abilities|
    ensures forall i :: 0 <= i < |d.abilities| ==> p.abilities[i] == d.abilities[i].ability.name
    ensures |p.types| == |d.types|
    ensures forall i :: 0 <= i < |d.types| ==> p.types[i] == d.types[i].typeRef.name
    ensures Truthy(d.sprites.officialArtwork) ==> p.image == d.sprites.officialArtwork
    ensures !Truthy(d.sprites.officialArtwork) ==> p.image == d.sprites.frontDefault
  {
    PokemonDetail(
      d.id,
      d.name,
      seq(|d.abilities|, i requires 0 <= i < |d.abilities| => d.abilities[i].ability.name),
      seq(|d.types|, i requires 0 <= i < |d.types| => d.types[i].typeRef.name),
      DetailImage(d.sprites),
      evolution)
  }

  /**
   The details endpoint on a miss: the record, then its species' evolution
   chain, then the composition. The first failure ends the request.
   */
  function FetchFullDetails(cfg: Config, name: string, up: Upstream): (a: Attempt<Payload>)
    ensures var d := FetchPokemonDetails(cfg, name, up);
            d.result.Err? ==> a == Attempt(Err(d.result.error), d.requests)
    ensures var d := FetchPokemonDetails(cfg, name, up);
            d.result.Ok? ==>
              var e := FetchEvolutionChain(cfg.imageUrl, d.result.value.species.url, up);
              && a.requests == d.requests + e.requests
              && (e.result.Err? ==> a.result == Err(e.result.error))
              && (e.result.Ok? ==> a.result == Ok(DetailPayload(ComposeDetail(d.result.value, e.result.value))))
  {
    var d := FetchPokemonDetails(cfg, name, up);
    match d.result
    case Err(error) => Attempt(Err(error), d.requests)
    case Ok(raw) =>
      var e := FetchEvolutionChain(cfg.imageUrl, raw.species.url, up);
      match e.result
      case Err(error) => Attempt(Err(error), d.requests + e.requests)
      case Ok(evolution) => Attempt(Ok(DetailPayload(ComposeDetail(raw, evolution))), d.requests + e.requests)
  }

  /**
   `getPokemonFullDetails`: a stored detail under the lower-cased key is served
   unchanged without asking the upstream; otherwise the details are fetched and
   composed, and a success is written back under that key with the service's TTL.
   */
  function GetPokemonFullDetails(cfg: Config, name: string, store: Store<Payload>, faults: Faults, up: Upstream): (s: Served<Payload>)
    ensures !faults.getFails && DetailKey(name) in store ==>
              s == Served(store, Ok(store[DetailKey(name)].value), [])
    ensures faults.getFails || DetailKey(name) !in store ==>
              var miss := FetchFullDetails(cfg, name, up);
              && s.result == miss.result
              && s.requests == miss.requests
              && s.store == (if miss.result.Err? || faults.setFails then store
                             else store[DetailKey(name) := Entry(miss.result.value, 86400000)])
  {
    ReadThrough(store, DetailKey(name), faults, FetchFullDetails(cfg, name, up))
  }

  // ---------------------------------------------------------------------------
  // Properties of the endpoints
  // ---------------------------------------------------------------------------

  /**
   Names that differ only in letter case share one cache entry: they ask the
   upstream the same URLs, leave the same cache, and succeed with the same
   detail. Only a failure's message differs, since it quotes the name as given.
   */
  lemma CaseInsensitiveDetails(cfg: Config, a: string, b: string, store: Store<Payload>, faults: Faults, up: Upstream)
    requires Lower(a) == Lower(b)
    ensures var sa := GetPokemonFullDetails(cfg, a, store, faults, up);
            var sb := GetPokemonFullDetails(cfg, b, store, faults, up);
            && sa.store == sb.store
            && sa.requests == sb.requests
            && sa.result.Ok? == sb.result.Ok?
            && (sa.result.Ok? ==> sa.result == sb.result)
  {
    assert DetailKey(a) == DetailKey(b);
    assert DetailUrl(cfg, a) == DetailUrl(cfg, b);
  }

  /**
   A cache that fails every `get` and every `set` serves each endpoint exactly
   what an empty, healthy cache would, and is left as it was.
   */
  lemma CacheOutageIsInvisible(cfg: Config, name: string, store: Store<Payload>, up: Upstream)
    ensures var down := GetPokemonListWithDetails(cfg, store, Faults(true, true), up);
            var empty := GetPokemonListWithDetails(cfg, map[], NoFaults, up);
            down.result == empty.result && down.requests == empty.requests && down.store == store
    ensures var down := GetPokemonFullDetails(cfg, name, store, Faults(true, true), up);
            var empty := GetPokemonFullDetails(cfg, name, map[], NoFaults, up);
            down.result == empty.result && down.requests == empty.requests && down.store == store
  {
    GetFailureActsAsEmptyCache(store, cfg.listCacheKey, true, FetchList(cfg, up));
    GetFailureActsAsEmptyCache(store, DetailKey(name), true, FetchFullDetails(cfg, name, up));
  }

  /**
   A detail fetched once is served from the cache afterwards, to any spelling of
   the name that lower-cases alike, without asking the upstream again; a failed
   fetch caches nothing.
   */
  lemma DetailServedFromCacheAfterMiss(cfg: Config, name: string, other: string, store: Store<Payload>, up: Upstream, later: Upstream)
    requires Lower(other) == Lower(name)
    requires DetailKey(name) !in store
    ensures var first := GetPokemonFullDetails(cfg, name, store, NoFaults, up);
            var second := GetPokemonFullDetails(cfg, other, first.store, NoFaults, later);
            first.result.Ok? ==> second.result == first.result && second.requests == []
    ensures var first := GetPokemonFullDetails(cfg, name, store, NoFaults, up);
            first.result.Err? ==> first.store == store
  {
    assert DetailKey(other) == DetailKey(name);
  }

  /**
   The detail composition of the documented example: a record with one ability,
   one type and only a default sprite, whose chain yields a single step.
   */
  lemma PikachuExample(cfg: Config, speciesUrl: string, chainUrl: string, pichu: NamedResource, up: Upstream)
    requires pichu.name == "pichu"
    requires up.pokemon(DetailUrl(cfg, "pikachu")) == Received(RawDetail(
               25, "pikachu",
               [AbilitySlot(NamedResource("static", ""))],
               [TypeSlot(NamedResource("electric", ""))],
               Sprites(Some("x.png"), None),
               NamedResource("pikachu", speciesUrl)))
    requires up.species(speciesUrl) == Received(SpeciesRecord(Some(chainUrl)))
    requires up.chains(chainUrl) == Received(ChainRecord(Some(ChainNode(pichu, []))))
    ensures var s := GetPokemonFullDetails(cfg, "pikachu", map[], NoFaults, up);
            && s.result.Ok? && s.result.value.DetailPayload?
            && var p := s.result.value.detail;
            && p.id == 25 && p.name == "pikachu"
            && p.abilities == ["static"] && p.types == ["electric"]
            && p.image == Some("x.png")
            && |p.evolution| == 1 && p.evolution[0].name == "pichu"
  {
    var raw := up.pokemon(DetailUrl(cfg, "pikachu")).value;
    var steps := EvolutionSteps(Some(ChainNode(pichu, [])), cfg.imageUrl);
    SingleNodeChain(pichu, cfg.imageUrl);
    assert FetchEvolutionChain(cfg.imageUrl, speciesUrl, up).result == Ok(steps);
    PikachuComposition(raw, steps);
    assert FetchFullDetails(cfg, "pikachu", up).result == Ok(DetailPayload(ComposeDetail(raw, steps)));
  }

  lemma SingleNodeChain(species: NamedResource, imageUrl: string)
    ensures var steps := EvolutionSteps(Some(ChainNode(species, [])), imageUrl);
            |steps| == 1 && steps[0].name == species.name
  {
    assert Path(Some(ChainNode(species, []))) == [ChainNode(species, [])];
  }

  lemma PikachuComposition(raw: RawDetail, steps: seq<EvolutionStep>)
    requires raw == RawDetail(
               25, "pikachu",
               [AbilitySlot(NamedResource("static", ""))],
               [TypeSlot(NamedResource("electric", ""))],
               Sprites(Some("x.png"), None),
               raw.species)
    ensures var p := ComposeDetail(raw, steps);
            && p.id == 25 && p.name == "pikachu"
            && p.abilities == ["static"] && p.types == ["electric"]
            && p.image == Some("x.png") && p.evolution == steps
  {
  }
}
