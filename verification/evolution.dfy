/**
 Flattening of an upstream evolution chain into a list of evolution steps.

 The upstream chain is a tree: each node names a species and lists the nodes it
 evolves to. The service walks it from the root, emits one step per node, and
 always descends into the FIRST child, so every branch but the first is dropped
 by design.
 */
module Evolution {

  import opened Results
  import opened Text
  import opened Resources

  datatype ChainNode = ChainNode(species: NamedResource, evolvesTo: seq<ChainNode>)

  datatype EvolutionStep = EvolutionStep(name: string, id: JsNumber, image: string)

  /**
   The nodes met by following the first child from `node` until a node without
   children: it starts at `node`, each node is followed by its first child, and
   it ends at a leaf.
   */
  function FirstChildPath(node: ChainNode): (path: seq<ChainNode>)
    ensures |path| >= 1 && path[0] == node
    ensures forall i :: 0 <= i < |path| - 1 ==>
              |path[i].evolvesTo| > 0 && path[i + 1] == path[i].evolvesTo[0]
    ensures path[|path| - 1].evolvesTo == []
  {
    [node] + if |node.evolvesTo| > 0 then FirstChildPath(node.evolvesTo[0]) else []
  }

  /** The first-child path of a possibly absent chain root (`while (currentNode)`). */
  function Path(chain: Option<ChainNode>): seq<ChainNode> {
    match chain
    case None => []
    case Some(node) => FirstChildPath(node)
  }

  /**
   The step emitted for one node: its species' name, and the id and sprite the
   species URL yields exactly as a list entry's record does.
   */
  function StepOf(node: ChainNode, imageUrl: string): (step: EvolutionStep)
    ensures var p := ToPokemon(node.species, imageUrl);
            step.name == p.name && step.id == p.id && step.image == p.image
  {
    EvolutionStep(node.species.name, ResourceId(node.species.url), ImageUrl(imageUrl, node.species.url))
  }

  /** The steps of a sequence of nodes, one per node, in order. */
  function StepsOf(path: seq<ChainNode>, imageUrl: string): (steps: seq<EvolutionStep>)
    ensures |steps| == |path|
    ensures forall i :: 0 <= i < |steps| ==> steps[i] == StepOf(path[i], imageUrl)
  {
    if |path| == 0 then [] else [StepOf(path[0], imageUrl)] + StepsOf(path[1..], imageUrl)
  }

  /**
   `parseEvolutionChain`: one step per node of the first-child path, root first,
   each carrying its species' name, the id from its species URL, and the sprite
   image for that id.
   */
  function EvolutionSteps(chain: Option<ChainNode>, imageUrl: string): (steps: seq<EvolutionStep>)
    ensures |steps| == |Path(chain)|
    ensures forall i :: 0 <= i < |steps| ==> steps[i] == StepOf(Path(chain)[i], imageUrl)
  {
    StepsOf(Path(chain), imageUrl)
  }

  /** The node the walk moves to after `node`: its first child, if it has one. */
  function Next(node: ChainNode): Option<ChainNode> {
    if |node.evolvesTo| > 0 then Some(node.evolvesTo[0]) else None
  }

  /** One step of the walk: the root's step, then the walk from its first child. */
  lemma StepsUnfold(node: ChainNode, imageUrl: string)
    ensures Path(Some(node)) == [node] + Path(Next(node))
    ensures EvolutionSteps(Some(node), imageUrl) == [StepOf(node, imageUrl)] + EvolutionSteps(Next(node), imageUrl)
  {
    var path := Path(Some(node));
    var tail := Path(Next(node));
    assert path == [node] + tail;
    assert path[1..] == tail;
  }

  /**
   The iterative walk of the source: a current node, a step pushed per visit,
   and a move to the first child until there is none.
   */
  method ParseEvolutionChain(chain: Option<ChainNode>, imageUrl: string) returns (steps: seq<EvolutionStep>)
    ensures steps == EvolutionSteps(chain, imageUrl)
  {
    steps := [];
    var current := chain;
    while current.Some?
      invariant steps + EvolutionSteps(current, imageUrl) == EvolutionSteps(chain, imageUrl)
      decreases |Path(current)|
    {
      var node := current.value;
      StepsUnfold(node, imageUrl);
      AppendAssociates(steps, [StepOf(node, imageUrl)], EvolutionSteps(Next(node), imageUrl));
      steps := steps + [StepOf(node, imageUrl)];
      current := Next(node);
    }
  }

  lemma AppendAssociates<T>(a: seq<T>, b: seq<T>, c: seq<T>)
    ensures (a + b) + c == a + (b + c)
  {
  }

  /** Only the first child is ever visited: later siblings do not change the result. */
  lemma OnlyFirstChildMatters(species: NamedResource, first: ChainNode, others: seq<ChainNode>, imageUrl: string)
    ensures EvolutionSteps(Some(ChainNode(species, [first] + others)), imageUrl) ==
            EvolutionSteps(Some(ChainNode(species, [first])), imageUrl)
  {
    var branching := ChainNode(species, [first] + others);
    var single := ChainNode(species, [first]);
    var long := Path(Some(branching));
    var short := Path(Some(single));
    assert long == [branching] + Path(Some(first));
    assert short == [single] + Path(Some(first));
    assert long[1..] == short[1..];
    assert StepOf(branching, imageUrl) == StepOf(single, imageUrl);
  }

  /**
   A chain `A -> [B, C]` with B first flattens to the steps of A and B: C never
   appears.
   */
  lemma BranchKeepsFirstOnly(a: NamedResource, b: NamedResource, c: NamedResource, imageUrl: string)
    requires c.name != a.name && c.name != b.name
    ensures var chain := Some(ChainNode(a, [ChainNode(b, []), ChainNode(c, [])]));
            var steps := EvolutionSteps(chain, imageUrl);
            |steps| == 2 && steps[0].name == a.name && steps[1].name == b.name &&
            forall i :: 0 <= i < |steps| ==> steps[i].name != c.name
  {
    var root := ChainNode(a, [ChainNode(b, []), ChainNode(c, [])]);
    assert FirstChildPath(ChainNode(b, [])) == [ChainNode(b, [])];
    assert Path(Some(root)) == [root, ChainNode(b, [])];
  }
}
