/** What the tree code sees of the game: block positions, block states, the
    host's block predicates, the random source and the placement notifier.
    The host's predicates are not re-implemented: they are parameters. */
module World {

  datatype Pos = Pos(x: int, y: int, z: int)

  /** `pos.up(n)`. */
  function Up(p: Pos, n: int): (q: Pos)
    ensures q.x == p.x && q.y == p.y + n && q.z == p.z
  {
    Pos(p.x, p.y + n, p.z)
  }

  /** The material of a block's default state, as far as the tree code asks. */
  datatype Material = AirMaterial | LeavesMaterial | OtherMaterial(name: string)

  /** A block type, identified by its registry name. */
  datatype Block = Block(id: string, material: Material)

  /** A block state: its block and its property values, keyed by property name. */
  datatype BlockState = BlockState(block: Block, properties: map<string, string>)

  type Blocks = map<Pos, BlockState>

  const AIR: Block := Block("minecraft:air", AirMaterial)
  const AIR_STATE: BlockState := BlockState(AIR, map[])

  /** `world.getBlockState(p)`: a position the map does not hold is air. */
  function At(blocks: Blocks, p: Pos): BlockState
  {
    if p in blocks then blocks[p] else AIR_STATE
  }

  /** One call of the notifier: the position and the state to place there. */
  datatype Placement = Placement(pos: Pos, state: BlockState)

  /** The host's block callbacks, each given the world it would be called with. */
  datatype Host = Host(
    // Block.isReplaceable(world, pos)
    blockIsReplaceable: (Block, Blocks, Pos) -> bool,
    // Block.canBeReplacedByLeaves(state, world, pos)
    canBeReplacedByLeaves: (BlockState, Blocks, Pos) -> bool,
    // Block.isAir(state, world, pos)
    isAir: (BlockState, Blocks, Pos) -> bool,
    // Block.isLeaves(state, world, pos)
    isLeaves: (BlockState, Blocks, Pos) -> bool,
    // Block.canSustainPlant(state, world, pos, UP, plantable), the plantable given by its block
    canSustainPlant: (BlockState, Blocks, Pos, Block) -> bool,
    // Block.onPlantGrow(state, world, pos, source): the world it leaves behind
    onPlantGrow: (BlockState, Blocks, Pos, Pos) -> Blocks)

  /** Everything one growth attempt can change: the world, the notifier's log,
      how many random draws were taken and the bound each one was taken with. */
  datatype Gen = Gen(blocks: Blocks, log: seq<Placement>, consumed: nat, bounds: seq<int>)

  /** What stays fixed during one growth attempt: the host, whether the
      notifier writes placements into the world, and the random stream. */
  datatype Env = Env(host: Host, applies: bool, stream: nat -> int)

  /** The notifier called with `(p, s)`. */
  function Notified(env: Env, st: Gen, p: Pos, s: BlockState): (r: Gen)
    ensures r.log == st.log + [Placement(p, s)]
    ensures r.consumed == st.consumed && r.bounds == st.bounds
    ensures r.blocks == if env.applies then st.blocks[p := s] else st.blocks
  {
    Gen(if env.applies then st.blocks[p := s] else st.blocks, st.log + [Placement(p, s)], st.consumed, st.bounds)
  }

  /** `random.nextInt(bound)`: the next value of the stream, reduced to `[0, bound)`. */
  function Draw(env: Env, st: Gen, bound: int): (r: (int, Gen))
    requires bound > 0
    ensures 0 <= r.0 < bound
    ensures r.1 == st.(consumed := st.consumed + 1, bounds := st.bounds + [bound])
  {
    (env.stream(st.consumed) % bound, st.(consumed := st.consumed + 1, bounds := st.bounds + [bound]))
  }

  /** The world a growth attempt runs in, together with the notifier it is
      given. When `applies` holds the notifier writes each placement into the
      world (sapling growth); otherwise it only records it. */
  class Level {
    var blocks: Blocks
    var log: seq<Placement>
    const height: int
    const applies: bool

    constructor (blocks: Blocks, height: int, applies: bool)
      ensures this.blocks == blocks && this.height == height && this.applies == applies
      ensures log == []
    {
      this.blocks := blocks;
      this.height := height;
      this.applies := applies;
      log := [];
    }

    /** `notifier.accept(world, p, s)`. */
    method Notify(p: Pos, s: BlockState)
      modifies this`blocks, this`log
      ensures log == old(log) + [Placement(p, s)]
      ensures blocks == if applies then old(blocks)[p := s] else old(blocks)
    {
      log := log + [Placement(p, s)];
      if applies {
        blocks := blocks[p := s];
      }
    }

    /** `state.getBlock().onPlantGrow(state, world, ground, source)`: the host
        changes the world itself, without the notifier. */
    method PlantGrow(host: Host, state: BlockState, ground: Pos, source: Pos)
      modifies this`blocks
      ensures blocks == host.onPlantGrow(state, old(blocks), ground, source)
    {
      blocks := host.onPlantGrow(state, blocks, ground, source);
    }
  }

  /** A `java.util.Random`: an infinite stream of values, how many of them
      have been taken, and the bound each draw asked for. */
  class Random {
    const stream: nat -> int
    var consumed: nat
    var bounds: seq<int>

    constructor (stream: nat -> int)
      ensures this.stream == stream && consumed == 0 && bounds == []
    {
      this.stream := stream;
      consumed := 0;
      bounds := [];
    }

    method NextInt(bound: int) returns (r: int)
      requires bound > 0
      modifies this`consumed, this`bounds
      ensures 0 <= r < bound
      ensures r == stream(old(consumed)) % bound
      ensures consumed == old(consumed) + 1 && bounds == old(bounds) + [bound]
    {
      r := stream(consumed) % bound;
      consumed := consumed + 1;
      bounds := bounds + [bound];
    }
  }
}
