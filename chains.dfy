/** Chain views and fork choice in the blockchain-launch simulation: the
    chain parameters fingerprint, the heaviest-chain merge with an optional
    bound on how many of its own blocks a chain may give up, the choice
    between a plain and a reorg-protected chain, and the majority miners'
    one-way activation. */
module Chains {
  import opened Basics

  /** A block as the fork-choice rule sees it. */
  datatype Block = Block(id: string, weight: real, height: int)

  /** chain_params: block time, difficulty readjustment period, initial
      difficulty and maximum difficulty change factor; a reorg-protected chain
      appends its bound, which a plain chain's fingerprint lacks (None). */
  datatype ChainParams = ChainParams(
    blockTime: real,
    readjustmentPeriod: int,
    initialDifficulty: real,
    maxChangeFactor: int,
    reorgBound: Option<int>)

  /** The constructor defaults of a chain. */
  const DEFAULT_PARAMS := ChainParams(600.0, 2016, 600.0, 4, None)

  /** The fields a merge replaces: blocks by id, the height index, height,
      cumulative weight and difficulty. */
  datatype ChainState = ChainState(
    blocks: map<string, Block>,
    heights: seq<string>,
    height: int,
    weight: real,
    difficulty: real)

  /** How many of my blocks the candidate chain does not have. */
  function Divergence(mine: ChainState, theirs: ChainState): (n: nat)
    ensures n == 0 <==> mine.blocks.Keys <= theirs.blocks.Keys
  {
    var gone := mine.blocks.Keys - theirs.blocks.Keys;
    assert gone == {} ==> mine.blocks.Keys <= theirs.blocks.Keys by {
      if gone == {} {
        forall x | x in mine.blocks.Keys ensures x in theirs.blocks.Keys {
          assert x !in gone;
        }
      }
    }
    |gone|
  }

  datatype Verdict = Lighter | TooDifferent | Adopt

  /** The fork-choice rule of ReorgProtectedBlockchain.merge, with the
      divergence compared by its size; a bound of None is a plain chain,
      which only weighs. A candidate is adopted exactly when it is at least
      as heavy and, on a protected chain, gives up no more blocks than the
      bound; so adoption never lowers the weight, and a tie is not rejected
      on weight. */
  function Decide(mine: ChainState, theirs: ChainState, bound: Option<int>): (v: Verdict)
    ensures v == Adopt <==> mine.weight <= theirs.weight && (bound.Some? ==> Divergence(mine, theirs) <= bound.value)
    ensures v == Lighter <==> theirs.weight < mine.weight
    ensures v == TooDifferent ==> bound.Some?
  {
    if theirs.weight < mine.weight then Lighter
    else if bound.Some? && Divergence(mine, theirs) > bound.value then TooDifferent
    else Adopt
  }

  /** Merging a chain with the state it already has adopts it (and so
      changes nothing), unless the bound is negative. */
  lemma MergeSameState(s: ChainState, bound: Option<int>)
    requires bound.Some? ==> bound.value >= 0
    ensures Decide(s, s, bound) == Adopt
  {
    assert Divergence(s, s) == 0;
  }

  /** A bound of 0 lets through only a candidate that keeps every one of my
      blocks. */
  lemma ZeroBoundKeepsBlocks(mine: ChainState, theirs: ChainState)
    ensures Decide(mine, theirs, Some(0)) == Adopt
        <==> mine.weight <= theirs.weight && mine.blocks.Keys <= theirs.blocks.Keys
  {
  }

  /** A looser bound adopts whatever a tighter one does, and a plain chain
      adopts whatever any protected chain does. */
  lemma LooserBoundAdopts(mine: ChainState, theirs: ChainState, b: int, b': int)
    requires b <= b'
    ensures Decide(mine, theirs, Some(b)) == Adopt ==> Decide(mine, theirs, Some(b')) == Adopt
    ensures Decide(mine, theirs, Some(b)) == Adopt ==> Decide(mine, theirs, None) == Adopt
  {
  }

  /** One miner's view of the ledger. Merges overwrite its fields in place;
      maps and sequences are values here, so an adopted state shares nothing
      with the chain it came from. */
  class Blockchain {
    const id: string
    const params: ChainParams
    var blocks: map<string, Block>
    var heights: seq<string>
    var height: int
    var weight: real
    var difficulty: real

    function State(): ChainState
      reads this
    {
      ChainState(blocks, heights, height, weight, difficulty)
    }

    /** A chain holding only its genesis block. */
    constructor (id: string, genesis: Block, params: ChainParams)
      ensures this.id == id && this.params == params
      ensures State() == GenesisState(genesis, params)
    {
      this.id := id;
      this.params := params;
      blocks := map[genesis.id := genesis];
      heights := [genesis.id];
      height := genesis.height;
      weight := genesis.weight;
      difficulty := params.initialDifficulty;
    }

    /** ReorgProtectedBlockchain.merge: reject a lighter candidate, then one
      that would drop more of my blocks than the bound allows; otherwise
      take over all five fields at once. */
    method Merge(other: Blockchain) returns (accepted: bool)
      requires other.params == params
      modifies this
      ensures accepted <==> Decide(old(State()), old(other.State()), params.reorgBound) == Adopt
      ensures accepted ==> State() == old(other.State())
      ensures !accepted ==> State() == old(State())
      ensures other != this ==> other.State() == old(other.State())
    {
      if other.weight < weight {
        return false;
      }
      var otherIds := other.blocks.Keys;
      var selfIds := blocks.Keys;
      if params.reorgBound.Some? && |selfIds - otherIds| > params.reorgBound.value {
        return false;
      }
      blocks := other.blocks;
      heights := other.heights;
      height := other.height;
      weight := other.weight;
      difficulty := other.difficulty;
      accepted := true;
    }
  }

  function GenesisState(genesis: Block, params: ChainParams): (s: ChainState)
    ensures s.blocks.Keys == {genesis.id} && s.heights == [genesis.id]
    ensures s.weight == genesis.weight && s.difficulty == params.initialDifficulty
  {
    ChainState(map[genesis.id := genesis], [genesis.id], genesis.height, genesis.weight, params.initialDifficulty)
  }

  /** The fingerprint of a reorg-protected chain: the plain one with the
      bound appended. */
  function ProtectedParams(base: ChainParams, bound: int): (p: ChainParams)
    requires base.reorgBound.None?
    ensures p != base && p.reorgBound == Some(bound)
    ensures p.(reorgBound := None) == base
  {
    base.(reorgBound := Some(bound))
  }

  /** _build_blockchain's choice: protected exactly when a bound is given. */
  function BuildParams(maxReorg: Option<int>): (p: ChainParams)
    ensures p.reorgBound == maxReorg
    ensures p.(reorgBound := None) == DEFAULT_PARAMS
  {
    if maxReorg.Some? then ProtectedParams(DEFAULT_PARAMS, maxReorg.value) else DEFAULT_PARAMS
  }

  /** A plain and a protected chain never merge with each other: their
      fingerprints differ. */
  lemma PlainAndProtectedDiffer(b: int)
    ensures BuildParams(None) != BuildParams(Some(b))
  {
  }

  method BuildBlockchain(maxReorg: Option<int>, name: string, genesis: Block) returns (c: Blockchain)
    ensures fresh(c) && c.id == name
    ensures c.params == BuildParams(maxReorg) && c.params.reorgBound == maxReorg
    ensures c.State() == GenesisState(genesis, c.params)
  {
    c := new Blockchain(name, genesis, BuildParams(maxReorg));
  }

  /** The CLI's max_reorg as the run reads it, corrected: absent means a
      plain chain, any given number (0 included) is a bound. */
  function ResolveMaxReorg(option: Option<int>): (r: Option<int>)
    ensures r.Some? <==> option.Some?
    ensures r.Some? ==> r.value == option.value
  {
    match option
    case None => None
    case Some(n) => Some(n)
  }

  /** With the corrected reading a bound of 0 reaches the chain, which then
      refuses a heavier candidate that drops one of its blocks. */
  lemma ZeroBoundProtects()
    ensures BuildParams(ResolveMaxReorg(Some(0))).reorgBound == Some(0)
    ensures Decide(Mine(), Heavier(), BuildParams(ResolveMaxReorg(Some(0))).reorgBound) == TooDifferent
  {
    assert Divergence(Mine(), Heavier()) != 0 by {
      assert "a" in Mine().blocks.Keys && "a" !in Heavier().blocks.Keys;
    }
  }

  // ---------------------------------------------------------------------
  // The three statements below as written in the source.

  /** Line 90 as written: a truthiness test, so a requested bound of 0 is
      read as no bound at all. */
  function ResolveMaxReorgAsWritten(option: Option<int>): (r: Option<int>)
    ensures option.None? ==> r.None?
    ensures option.Some? && option.value != 0 ==> r == option
  {
    if option.Some? && option.value != 0 then Some(option.value) else None
  }

  function Mine(): ChainState
  {
    ChainState(map["a" := Block("a", 1.0, 2)], ["genesis", "a"], 2, 2.0, 600.0)
  }

  function Heavier(): ChainState
  {
    ChainState(map["b" := Block("b", 1.0, 2), "c" := Block("c", 1.0, 3)], ["genesis", "b", "c"], 3, 3.0, 600.0)
  }

  /** max_reorg = 0 as written builds a plain chain, which adopts the heavier
      candidate that a bound of 0 refuses. */
  lemma ZeroBoundDropped()
    ensures ResolveMaxReorgAsWritten(Some(0)) == None
    ensures BuildParams(ResolveMaxReorgAsWritten(Some(0))) == DEFAULT_PARAMS
    ensures Decide(Mine(), Heavier(), BuildParams(ResolveMaxReorgAsWritten(Some(0))).reorgBound) == Adopt
  {
  }

  datatype PyError = TypeError | AttributeError

  /** The two operands at line 61: a set of block ids and an integer. */
  datatype Operand = IdSet(ids: set<string>) | Int(n: int)

  /** Python 3's `>`: sets compare as proper supersets, integers by value,
      and a set against an integer raises TypeError. */
  function Greater(x: Operand, y: Operand): (r: Result<bool, PyError>)
    ensures (x.IdSet? != y.IdSet?) <==> r == Err(TypeError)
  {
    match (x, y)
    case (IdSet(a), IdSet(b)) => Ok(b < a)
    case (Int(a), Int(b)) => Ok(a > b)
    case _ => Err(TypeError)
  }

  /** Lines 55-63 as written: the set of dropped ids itself is compared with
      the bound. */
  function DecideAsWritten(mine: ChainState, theirs: ChainState, bound: int): (r: Result<Verdict, PyError>)
    ensures r == Ok(Lighter) <==> theirs.weight < mine.weight
    ensures r.Err? ==> r.error == TypeError
  {
    if theirs.weight < mine.weight then Ok(Lighter)
    else
      match Greater(IdSet(mine.blocks.Keys - theirs.blocks.Keys), Int(bound))
      case Err(e) => Err(e)
      case Ok(tooDifferent) => Ok(if tooDifferent then TooDifferent else Adopt)
  }

  /** As written, every candidate that is not lighter raises TypeError, so a
      protected chain never adopts anything; comparing the size instead gives
      the rule Decide states. */
  lemma AsWrittenNeverAdopts(mine: ChainState, theirs: ChainState, bound: int)
    ensures DecideAsWritten(mine, theirs, bound) != Ok(Adopt)
    ensures mine.weight <= theirs.weight ==> DecideAsWritten(mine, theirs, bound) == Err(TypeError)
    ensures mine.weight <= theirs.weight ==>
      Greater(Int(Divergence(mine, theirs)), Int(bound))
        == Ok(Decide(mine, theirs, Some(bound)) == TooDifferent)
  {
  }

  const MAX_REORG_ATTRIBUTE := "max_reorg_block_difference"

  /** Line 47 as written: the bound is read back from the chain's own
      attributes; `stored` are the attributes set before that line. */
  function ProtectedParamsAsWritten(base: ChainParams, stored: map<string, int>): (r: Result<ChainParams, PyError>)
    requires base.reorgBound.None?
    ensures r.Ok? <==> MAX_REORG_ATTRIBUTE in stored
  {
    if MAX_REORG_ATTRIBUTE in stored then Ok(ProtectedParams(base, stored[MAX_REORG_ATTRIBUTE]))
    else Err(AttributeError)
  }

  /** The constructor never stores its max_reorg_block_difference argument,
      so with the base chain's attributes line 47 raises AttributeError
      whatever bound was asked for; storing it first gives ProtectedParams. */
  lemma ProtectedConstructionFails(base: ChainParams, bound: int, baseAttributes: map<string, int>)
    requires base.reorgBound.None? && MAX_REORG_ATTRIBUTE !in baseAttributes
    ensures ProtectedParamsAsWritten(base, baseAttributes) == Err(AttributeError)
    ensures ProtectedParamsAsWritten(base, baseAttributes[MAX_REORG_ATTRIBUTE := bound]) == Ok(ProtectedParams(base, bound))
  {
  }

  // ---------------------------------------------------------------------
  // Majority miners.

  /** A message travelling between agents; Broadcast stands for every kind
      other than BlockchainLaunch. */
  datatype Transmission =
    | BlockchainLaunch(id: string, sender: string, time: real)
    | Broadcast(id: string, sender: string, time: real)

  /** Whether the majority miners are active after reacting to ts in order. */
  function ActiveAfter(active: bool, ts: seq<Transmission>): (r: bool)
    ensures r <==> active || exists k :: 0 <= k < |ts| && ts[k].BlockchainLaunch?
    decreases |ts|
  {
    if |ts| == 0 then active
    else
      assert forall k :: 0 < k < |ts| ==> ts[1..][k - 1] == ts[k];
      ActiveAfter(active || ts[0].BlockchainLaunch?, ts[1..])
  }

  /** Once active, always active. */
  lemma ActiveStaysActive(ts: seq<Transmission>, more: seq<Transmission>)
    ensures ActiveAfter(true, ts)
    ensures ActiveAfter(false, ts) ==> ActiveAfter(false, ts + more)
  {
    if ActiveAfter(false, ts) {
      var k :| 0 <= k < |ts| && ts[k].BlockchainLaunch?;
      assert (ts + more)[k] == ts[k];
    }
  }

  class MajorityMiners {
    const id: string
    const location: real
    var active: bool

    constructor (id: string, location: real, active: bool)
      ensures this.id == id && this.location == location && this.active == active
    {
      this.id := id;
      this.location := location;
      this.active := active;
    }

    /** MajorityMiners.react: a launch switches inactive miners on; nothing
      switches them off. */
    method React(time: real, t: Transmission)
      modifies this
      ensures active == ActiveAfter(old(active), [t])
      ensures old(active) ==> active
    {
      if !active && t.BlockchainLaunch? {
        active := true;
      }
    }
  }
}
