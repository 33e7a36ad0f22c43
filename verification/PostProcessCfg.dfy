/** Removal of unreachable code after building: blocks that are only kept because a header names
    them are reduced to a canonical form, and decorations of dead ids are dropped. */
module PostProcessCfg {
  import opened Cfg
  import opened ReadableOrder
  import opened ReadableOrderTraverser

  type Id = nat

  datatype Op = OpLabel | OpSelectionMerge | OpLoopMerge | OpBranch | OpUnreachable | OpOther(code: nat)

  /** An instruction; a result id of 0 means that there is none. */
  datatype Instruction = Instruction(op: Op, resultId: Id, operands: seq<Id>)

  /** A block: its instructions, the first being the label whose result id is the block's id. */
  datatype Block = Block(instructions: seq<Instruction>, successors: seq<BlockId>)

  datatype Function = Function(entry: BlockId, blocks: seq<BlockId>)

  /** A decoration: the decorated id and the rest of the instruction. */
  datatype Decoration = Decoration(target: Id, what: seq<nat>)

  datatype Module = Module(functions: seq<Function>, blocks: map<BlockId, Block>, decorations: seq<Decoration>)

  // ---------- the graph of a module ----------

  /** The merge instruction stands next to last. */
  function MergeOf(b: Block): MergeInst {
    if |b.instructions| < 2 then NoMerge else
    var i := b.instructions[|b.instructions| - 2];
    if i.op == OpSelectionMerge && |i.operands| >= 1 then SelectionMerge(i.operands[0])
    else if i.op == OpLoopMerge && |i.operands| >= 2 then LoopMerge(i.operands[0], i.operands[1])
    else NoMerge
  }

  function GraphOf(blocks: map<BlockId, Block>): Graph {
    map b <- blocks :: Shape(MergeOf(blocks[b]), blocks[b].successors)
  }

  /** Blocks are labelled, and every function owns its blocks: it mentions no others and shares none. */
  ghost predicate WellFormed(m: Module) {
    && Closed(GraphOf(m.blocks))
    && (forall b <- m.blocks :: |m.blocks[b].instructions| > 0)
    && (forall f <- m.functions :: OwnsBlocks(m, f))
    && (forall i, j, b | 0 <= i < j < |m.functions| && b in m.functions[i].blocks :: b !in m.functions[j].blocks)
  }

  ghost predicate OwnsBlocks(m: Module, f: Function) {
    && f.entry in f.blocks
    && (forall b <- f.blocks :: b in m.blocks)
    && forall a, b | a in f.blocks && (Edge(GraphOf(m.blocks), a, b) || IsTarget(GraphOf(m.blocks), a, b)) ::
        b in f.blocks
  }

  /** The callbacks for one function. */
  ghost function Order(m: Module, f: Function): seq<Callback>
    requires WellFormed(m) && f in m.functions
  {
    ReadableOrderOf(GraphOf(m.blocks), f.entry)
  }

  /** A traversal stays inside its function. */
  lemma {:induction false} CalledBlocksAreOwned(m: Module, f: Function, i: nat)
    requires WellFormed(m) && f in m.functions && i < |Order(m, f)|
    ensures Order(m, f)[i].block in f.blocks
    decreases i
  {
    var g, log := GraphOf(m.blocks), Order(m, f);
    if IsFlow(log, i) {
      var s := TraversalComplete(g, f.entry);
      var p := EarlierRootPath(g, f.entry, log, i);
      PathStays(g, f.blocks, p, f.entry, log[i].block);
    } else {
      TargetsAreReported(g, f.entry);
      assert DeadEntryOk(g, log, i);
      var j :| 0 <= j < i && log[j].block == log[i].header.id;
      CalledBlocksAreOwned(m, f, j);
      assert IsTarget(g, log[j].block, log[i].block);
    }
  }

  // ---------- what the pass computes ----------

  function CanonicalMerge(b: Block): Block
    requires |b.instructions| > 0
  {
    Block([b.instructions[0], Instruction(OpUnreachable, 0, [])], [])
  }

  function CanonicalContinue(b: Block, header: BlockId): Block
    requires |b.instructions| > 0
  {
    Block([b.instructions[0], Instruction(OpBranch, 0, [header])], [header])
  }

  /** The callbacks for the first `n` functions. */
  ghost function Callbacks(m: Module, n: nat): seq<Callback>
    requires WellFormed(m) && n <= |m.functions|
  {
    if n == 0 then [] else Callbacks(m, n - 1) + Order(m, m.functions[n - 1])
  }

  ghost function AllCallbacks(m: Module): seq<Callback>
    requires WellFormed(m)
  {
    Callbacks(m, |m.functions|)
  }

  lemma OrderDistinct(m: Module, n: nat)
    requires WellFormed(m) && n < |m.functions|
    ensures Distinct(Order(m, m.functions[n]))
  {
    assert OwnsBlocks(m, m.functions[n]);
    OnceInDominatorOrder(GraphOf(m.blocks), m.functions[n].entry);
  }

  lemma FunctionsDisjoint(m: Module)
    requires WellFormed(m)
    ensures forall i, j, b | 0 <= i < |m.functions| && 0 <= j < |m.functions| && i != j && b in m.functions[i].blocks ::
              b !in m.functions[j].blocks
  {
  }

  lemma {:induction false} CallbacksOwned(m: Module, n: nat, i: nat)
    requires WellFormed(m) && n <= |m.functions| && i < |Callbacks(m, n)|
    ensures exists j | 0 <= j < n ::
              Callbacks(m, n)[i] in Order(m, m.functions[j]) && Callbacks(m, n)[i].block in m.functions[j].blocks
  {
    hide WellFormed, Order;
    var before := Callbacks(m, n - 1);
    if i < |before| {
      CallbacksOwned(m, n - 1, i);
    } else {
      CalledBlocksAreOwned(m, m.functions[n - 1], i - |before|);
    }
  }

  lemma {:induction false} CallbacksDistinct(m: Module, n: nat)
    requires WellFormed(m) && n <= |m.functions|
    ensures Distinct(Callbacks(m, n))
  {
    hide WellFormed, Order;
    if n > 0 {
      var before, order := Callbacks(m, n - 1), Order(m, m.functions[n - 1]);
      CallbacksDistinct(m, n - 1);
      OrderDistinct(m, n - 1);
      forall i: nat, j: nat | i < |before| && j < |order| ensures before[i].block != order[j].block {
        CallbacksOwned(m, n - 1, i);
        CalledBlocksAreOwned(m, m.functions[n - 1], j);
        FunctionsDisjoint(m);
      }
    }
  }

  /** A block of function `n` is decided by the callbacks for that function. */
  lemma {:induction false} CallbacksOfFunction(m: Module, n: nat, k: nat, c: Callback)
    requires WellFormed(m) && n < k <= |m.functions| && c.block in m.functions[n].blocks
    ensures c in Callbacks(m, k) <==> c in Order(m, m.functions[n])
  {
    hide WellFormed, Order;
    FunctionsDisjoint(m);
    if k == n + 1 {
      if c in Callbacks(m, n) {
        var i :| 0 <= i < |Callbacks(m, n)| && Callbacks(m, n)[i] == c;
        CallbacksOwned(m, n, i);
        assert false;
      }
    } else {
      CallbacksOfFunction(m, n, k - 1, c);
      if c in Order(m, m.functions[k - 1]) {
        var i :| 0 <= i < |Order(m, m.functions[k - 1])| && Order(m, m.functions[k - 1])[i] == c;
        CalledBlocksAreOwned(m, m.functions[k - 1], i);
        assert false;
      }
    }
  }

  predicate CalledIn(log: seq<Callback>, b: BlockId) {
    exists c <- log :: c.block == b
  }

  predicate DeadIn(log: seq<Callback>, b: BlockId) {
    exists c <- log :: c.block == b && c.why != ReachViaControlFlow
  }

  /** Instruction `k` of block `b` is dead: in a block never called back, or below the label of a
      block reported dead. */
  predicate DeadAt(log: seq<Callback>, b: BlockId, k: nat) {
    !CalledIn(log, b) || (k > 0 && DeadIn(log, b))
  }

  /** The id is the result of a dead instruction of one of the first `n` functions. */
  ghost predicate DefinedInDeadCode(m: Module, n: nat, id: Id)
    requires WellFormed(m) && n <= |m.functions|
  {
    exists i | 0 <= i < n :: DefinedInDeadBlock(AllCallbacks(m), m.blocks, m.functions[i].blocks, id)
  }

  predicate DefinedInDeadBlock(log: seq<Callback>, blocks: map<BlockId, Block>, bs: seq<BlockId>, id: Id) {
    exists b <- bs :: b in blocks && IsDeadDefinition(log, b, blocks[b], |blocks[b].instructions|, id)
  }

  /** One of the first `n` instructions of block `b` is dead and has result `id`. */
  predicate IsDeadDefinition(log: seq<Callback>, b: BlockId, block: Block, n: nat, id: Id)
    requires n <= |block.instructions|
  {
    exists k | 0 <= k < n :: DeadAt(log, b, k) && block.instructions[k].resultId == id
  }

  function Kept(ds: seq<Decoration>, dead: set<Id>): seq<Decoration> {
    if ds == [] then []
    else if ds[0].target in dead then Kept(ds[1..], dead)
    else [ds[0]] + Kept(ds[1..], dead)
  }

  /** The blocks after the pass: dead-reported ones have their canonical form, the others are untouched. */
  ghost predicate BlocksRewritten(m: Module, blocks: map<BlockId, Block>)
    requires WellFormed(m)
  {
    && blocks.Keys == m.blocks.Keys
    && (forall c <- AllCallbacks(m) | c.why != ReachViaControlFlow ::
          c.block in blocks && c.block in m.blocks && blocks[c.block] == Canonical(m.blocks[c.block], c))
    && (forall b <- m.blocks | !DeadIn(AllCallbacks(m), b) :: blocks[b] == m.blocks[b])
  }

  function Canonical(b: Block, c: Callback): Block
    requires |b.instructions| > 0
  {
    if c.why == ReachDeadMerge then CanonicalMerge(b) else CanonicalContinue(b, HeaderOf(c))
  }

  ghost predicate IsPostProcessed(m: Module, r: Module)
    requires WellFormed(m)
  {
    && r.functions == m.functions
    && BlocksRewritten(m, r.blocks)
    && exists dead :: IsDeadSet(m, dead) && r.decorations == Kept(m.decorations, dead)
  }

  ghost predicate IsDeadSet(m: Module, dead: set<Id>)
    requires WellFormed(m)
  {
    forall id :: id in dead <==> DefinedInDeadCode(m, |m.functions|, id)
  }

  function HeaderOf(c: Callback): BlockId {
    if c.header.SomeBlock? then c.header.id else 0
  }

  /** The sets that the callbacks in `log` have filled. */
  ghost predicate Collected(log: seq<Callback>, reachable: set<BlockId>, headers: map<BlockId, BlockId>,
                            merges: set<BlockId>) {
    && (forall b :: b in reachable <==> CalledIn(log, b))
    && (forall b :: b in merges <==> exists c <- log :: c.block == b && c.why == ReachDeadMerge)
    && (forall b :: b in headers <==> exists c <- log :: c.block == b && c.why == ReachDeadContinue)
    && (forall c <- log | c.why == ReachDeadContinue :: c.block in headers && headers[c.block] == HeaderOf(c))
  }

  lemma CollectedStep(log: seq<Callback>, c: Callback, reachable: set<BlockId>, headers: map<BlockId, BlockId>,
                      merges: set<BlockId>)
    requires Distinct(log + [c]) && Collected(log, reachable, headers, merges)
    ensures Collected(log + [c], reachable + {c.block},
                      if c.why == ReachDeadContinue then headers[c.block := HeaderOf(c)] else headers,
                      if c.why == ReachDeadMerge then merges + {c.block} else merges)
  {
    var log' := log + [c];
    assert c in log' && forall d <- log :: d in log';
    forall d <- log ensures d.block != c.block {
      var i :| 0 <= i < |log| && log[i] == d;
      assert log'[i].block != log'[|log|].block;
    }
  }

  lemma DistinctPrefix(log: seq<Callback>, log': seq<Callback>)
    requires log <= log' && Distinct(log')
    ensures Distinct(log)
  {
    forall i, j | 0 <= i < j < |log| ensures log[i].block != log[j].block {
      assert log'[i].block != log'[j].block;
    }
  }

  lemma HeldByCollected(log: seq<Callback>, reachable: set<BlockId>, headers: map<BlockId, BlockId>,
                        merges: set<BlockId>)
    requires Collected(log, reachable, headers, merges)
    ensures forall b :: (b in reachable <==> CalledIn(log, b)) && (b in merges || b in headers <==> DeadIn(log, b))
  {
  }

  lemma CollectedNothing()
    ensures Collected([], {}, map[], {})
  {
  }

  /** Facts about function `n` of a well-formed module. */
  lemma FunctionFacts(m: Module, n: nat)
    requires WellFormed(m) && n < |m.functions|
    ensures Closed(GraphOf(m.blocks)) && m.functions[n].entry in GraphOf(m.blocks)
    ensures forall b <- m.functions[n].blocks :: b in m.blocks && |m.blocks[b].instructions| > 0
    ensures Order(m, m.functions[n]) == ReadableOrderOf(GraphOf(m.blocks), m.functions[n].entry)
    ensures Callbacks(m, n + 1) == Callbacks(m, n) + Order(m, m.functions[n])
    ensures Distinct(Callbacks(m, n + 1))
  {
    CallbacksDistinct(m, n + 1);
    assert OwnsBlocks(m, m.functions[n]);
  }

  /** After `n + 1` functions it is settled how the blocks of function `n` are reported. */
  lemma FunctionSettled(m: Module, n: nat)
    requires WellFormed(m) && n < |m.functions|
    ensures forall b <- m.functions[n].blocks ::
              && (CalledIn(Callbacks(m, n + 1), b) <==> CalledIn(AllCallbacks(m), b))
              && (DeadIn(Callbacks(m, n + 1), b) <==> DeadIn(AllCallbacks(m), b))
  {
    hide WellFormed, Callbacks, AllCallbacks, Order;
    var early, all := Callbacks(m, n + 1), AllCallbacks(m);
    assert all == Callbacks(m, |m.functions|) by { AllCallbacksIs(m); }
    forall c: Callback | c.block in m.functions[n].blocks ensures c in early <==> c in all {
      CallbacksOfFunction(m, n, n + 1, c);
      CallbacksOfFunction(m, n, |m.functions|, c);
    }
  }

  lemma AllCallbacksIs(m: Module)
    requires WellFormed(m)
    ensures AllCallbacks(m) == Callbacks(m, |m.functions|)
  {
  }

  /** Rewriting the collected blocks is what the callbacks ask for. */
  lemma CollectedRewrites(m: Module, log: seq<Callback>, reachable: set<BlockId>, headers: map<BlockId, BlockId>,
                          merges: set<BlockId>, blocks: map<BlockId, Block>)
    requires WellFormed(m) && log == AllCallbacks(m) && Collected(log, reachable, headers, merges)
    requires blocks.Keys == m.blocks.Keys
    requires forall b <- m.blocks :: blocks[b] == Rewritten(m.blocks[b], b, headers, merges)
    ensures BlocksRewritten(m, blocks)
  {
    CallbacksDistinct(m, |m.functions|);
    hide AllCallbacks, Distinct, CalledIn, GraphOf;
    forall c <- log | c.why != ReachViaControlFlow
      ensures c.block in m.blocks && blocks[c.block] == Canonical(m.blocks[c.block], c)
    {
      CallbackBlockExists(m, c);
      DistinctCallbacks(log, c);
    }
  }

  lemma CallbackBlockExists(m: Module, c: Callback)
    requires WellFormed(m) && c in AllCallbacks(m)
    ensures c.block in m.blocks
  {
    var i :| 0 <= i < |AllCallbacks(m)| && AllCallbacks(m)[i] == c;
    CallbacksOwned(m, |m.functions|, i);
    var j :| 0 <= j < |m.functions| && c.block in m.functions[j].blocks;
    assert OwnsBlocks(m, m.functions[j]);
  }

  lemma DistinctCallbacks(log: seq<Callback>, c: Callback)
    requires Distinct(log) && c in log
    ensures forall d <- log | d.block == c.block :: d == c
  {
    forall d <- log | d.block == c.block ensures d == c {
      var i :| 0 <= i < |log| && log[i] == c;
      var j :| 0 <= j < |log| && log[j] == d;
      assert i == j;
    }
  }

  function Rewritten(block: Block, b: BlockId, headers: map<BlockId, BlockId>, merges: set<BlockId>): Block
    requires |block.instructions| > 0
  {
    if b in merges then CanonicalMerge(block)
    else if b in headers then CanonicalContinue(block, headers[b])
    else block
  }

  lemma LabelledBlocks(m: Module)
    requires WellFormed(m)
    ensures forall b <- m.blocks :: |m.blocks[b].instructions| > 0
  {
  }

  lemma CollectedApart(m: Module, reachable: set<BlockId>, headers: map<BlockId, BlockId>, merges: set<BlockId>)
    requires WellFormed(m) && Collected(AllCallbacks(m), reachable, headers, merges)
    ensures merges !! headers.Keys && merges <= m.blocks.Keys && headers.Keys <= m.blocks.Keys
  {
    hide WellFormed, AllCallbacks;
    AllCallbacksIs(m);
    CallbacksDistinct(m, |m.functions|);
    forall b | b in merges && b in headers ensures false {
      var c :| c in AllCallbacks(m) && c.block == b && c.why == ReachDeadMerge;
      DistinctCallbacks(AllCallbacks(m), c);
    }
    forall c <- AllCallbacks(m) ensures c.block in m.blocks {
      CallbackBlockExists(m, c);
    }
  }

  // ---------- what becomes of dead-reported blocks ----------

  /** Blocks begin with a label, as they do from their construction on. */
  predicate Labelled(blocks: map<BlockId, Block>) {
    forall b <- blocks :: |blocks[b].instructions| > 0 && blocks[b].instructions[0].op == OpLabel
  }

  /** A block of two instructions, its old label and `last`. */
  predicate ReducedTo(was: Block, b: Block, last: Instruction, successors: seq<BlockId>)
    requires |was.instructions| > 0
  {
    |b.instructions| == 2 && b.instructions[0] == was.instructions[0] && b.instructions[1] == last
    && b.successors == successors
  }

  lemma RewrittenBlock(m: Module, r: Module, c: Callback)
    requires WellFormed(m) && IsPostProcessed(m, r) && c in AllCallbacks(m) && c.why != ReachViaControlFlow
    ensures c.block in m.blocks && c.block in r.blocks && |m.blocks[c.block].instructions| > 0
    ensures r.blocks[c.block] == Canonical(m.blocks[c.block], c)
  {
    hide AllCallbacks, Order;
  }

  lemma UntouchedBlock(m: Module, r: Module, b: BlockId)
    requires WellFormed(m) && IsPostProcessed(m, r) && b in m.blocks && !DeadIn(AllCallbacks(m), b)
    ensures b in r.blocks && r.blocks[b] == m.blocks[b]
    ensures forall x :: Edge(GraphOf(r.blocks), b, x) <==> Edge(GraphOf(m.blocks), b, x)
    ensures forall x :: IsTarget(GraphOf(r.blocks), b, x) <==> IsTarget(GraphOf(m.blocks), b, x)
  {
    hide AllCallbacks, Order, WellFormed;
  }

  lemma ReportedHeader(m: Module, n: nat, c: Callback)
    requires WellFormed(m) && n < |m.functions| && c in Order(m, m.functions[n]) && c.why != ReachViaControlFlow
    ensures c.header.SomeBlock? && IsTarget(GraphOf(m.blocks), c.header.id, c.block)
    ensures c.header.id in m.functions[n].blocks && c.block in m.functions[n].blocks && c in AllCallbacks(m)
  {
    var f := m.functions[n];
    var g, log := GraphOf(m.blocks), Order(m, f);
    FunctionFacts(m, n);
    hide WellFormed, GraphOf, Order, ReadableOrderOf, AllCallbacks;
    TargetsAreReported(g, f.entry);
    var i :| 0 <= i < |log| && log[i] == c;
    assert DeadEntryOk(g, log, i);
    var j :| 0 <= j < i && log[j].block == c.header.id;
    CalledBlocksAreOwned(m, f, j);
    CalledBlocksAreOwned(m, f, i);
    AllCallbacksIs(m);
    CallbacksOfFunction(m, n, |m.functions|, c);
  }

  /** The dead-reported block of a callback afterwards: a merge block ends, a continue block branches to its header. */
  lemma DeadBlock(m: Module, r: Module, n: nat, c: Callback)
    requires WellFormed(m) && IsPostProcessed(m, r) && n < |m.functions|
    requires c in Order(m, m.functions[n]) && c.why != ReachViaControlFlow
    ensures c.block in m.blocks && c.block in r.blocks && |m.blocks[c.block].instructions| > 0 && c.header.SomeBlock?
    ensures IsTarget(GraphOf(m.blocks), c.header.id, c.block)
    ensures c.why == ReachDeadMerge ==>
              ReducedTo(m.blocks[c.block], r.blocks[c.block], Instruction(OpUnreachable, 0, []), [])
    ensures c.why == ReachDeadContinue ==>
              && ReducedTo(m.blocks[c.block], r.blocks[c.block], Instruction(OpBranch, 0, [c.header.id]), [c.header.id])
              && Edge(GraphOf(r.blocks), c.block, c.header.id)
  {
    hide WellFormed, IsPostProcessed, AllCallbacks, Order;
    ReportedHeader(m, n, c);
    RewrittenBlock(m, r, c);
  }

  /** Edges and declarations of a dead-reported block afterwards. */
  lemma DeadBlockEdges(m: Module, r: Module, n: nat, c: Callback, b: BlockId)
    requires WellFormed(m) && IsPostProcessed(m, r) && Labelled(m.blocks) && n < |m.functions|
    requires c in Order(m, m.functions[n]) && c.why != ReachViaControlFlow
    ensures !IsTarget(GraphOf(r.blocks), c.block, b)
    ensures Edge(GraphOf(r.blocks), c.block, b) ==> b in m.functions[n].blocks
  {
    hide WellFormed, IsPostProcessed, AllCallbacks, Order;
    DeadBlock(m, r, n, c);
    ReportedHeader(m, n, c);
  }

  /** The callback that reports a block dead is one of the block's function. */
  lemma ReportedIn(m: Module, b: BlockId) returns (n: nat, c: Callback)
    requires WellFormed(m) && DeadIn(AllCallbacks(m), b)
    ensures n < |m.functions| && c in Order(m, m.functions[n]) && c.block == b && c.why != ReachViaControlFlow
    ensures b in m.functions[n].blocks
  {
    hide WellFormed, Order, Callbacks;
    var all := AllCallbacks(m);
    c :| c in all && c.block == b && c.why != ReachViaControlFlow;
    var i :| 0 <= i < |all| && all[i] == c;
    AllCallbacksIs(m);
    CallbacksOwned(m, |m.functions|, i);
    n :| 0 <= n < |m.functions| && c in Order(m, m.functions[n]) && c.block in m.functions[n].blocks;
  }

  /** What a block mentions afterwards: what it did, or a block of its function. */
  lemma MentionedAfter(m: Module, r: Module, a: BlockId, b: BlockId)
    requires WellFormed(m) && IsPostProcessed(m, r) && Labelled(m.blocks) && a in m.blocks
    requires Edge(GraphOf(r.blocks), a, b) || IsTarget(GraphOf(r.blocks), a, b)
    ensures || Edge(GraphOf(m.blocks), a, b) || IsTarget(GraphOf(m.blocks), a, b)
            || exists n | 0 <= n < |m.functions| :: a in m.functions[n].blocks && b in m.functions[n].blocks
  {
    hide WellFormed, IsPostProcessed, AllCallbacks, Order, GraphOf;
    if DeadIn(AllCallbacks(m), a) {
      var n, c := ReportedIn(m, a);
      DeadBlockEdges(m, r, n, c, b);
    } else {
      UntouchedBlock(m, r, a);
    }
  }

  lemma SameBlocks(m: Module, r: Module)
    requires WellFormed(m) && IsPostProcessed(m, r) && Labelled(m.blocks)
    ensures r.functions == m.functions && r.blocks.Keys == m.blocks.Keys && Labelled(r.blocks)
  {
    hide AllCallbacks, Order;
    forall b <- r.blocks ensures |r.blocks[b].instructions| > 0 && r.blocks[b].instructions[0].op == OpLabel {
      if DeadIn(AllCallbacks(m), b) {
        var c :| c in AllCallbacks(m) && c.block == b && c.why != ReachViaControlFlow;
        RewrittenBlock(m, r, c);
      }
    }
  }

  lemma FunctionStays(m: Module, r: Module, n: nat)
    requires WellFormed(m) && IsPostProcessed(m, r) && Labelled(m.blocks) && n < |m.functions|
    ensures OwnsBlocks(r, m.functions[n])
  {
    var f := m.functions[n];
    SameBlocks(m, r);
    assert OwnsBlocks(m, f);
    forall a, b | a in f.blocks && (Edge(GraphOf(r.blocks), a, b) || IsTarget(GraphOf(r.blocks), a, b))
      ensures b in f.blocks
    {
      MentionedAfter(m, r, a, b);
      hide IsPostProcessed, GraphOf;
      if k :| 0 <= k < |m.functions| && a in m.functions[k].blocks && b in m.functions[k].blocks {
        assert k == n;
      }
    }
  }

  lemma ResultClosed(m: Module, r: Module)
    requires WellFormed(m) && IsPostProcessed(m, r) && Labelled(m.blocks)
    ensures Closed(GraphOf(r.blocks))
  {
    SameBlocks(m, r);
    GraphKeys(r.blocks);
    GraphKeys(m.blocks);
    assert Closed(GraphOf(m.blocks));
    hide IsPostProcessed, GraphOf, OwnsBlocks, Labelled, WellFormed, Edge, IsTarget;
    forall a, b | Edge(GraphOf(r.blocks), a, b) || IsTarget(GraphOf(r.blocks), a, b)
      ensures b in r.blocks
    {
      MentioningBlock(r.blocks, a, b);
      MentionedAfter(m, r, a, b);
      if n :| 0 <= n < |m.functions| && a in m.functions[n].blocks && b in m.functions[n].blocks {
        BlocksExist(m, n);
      }
    }
  }

  lemma MentioningBlock(blocks: map<BlockId, Block>, a: BlockId, b: BlockId)
    requires Edge(GraphOf(blocks), a, b) || IsTarget(GraphOf(blocks), a, b)
    ensures a in blocks
  {
  }

  /** The result is a well-formed module again. */
  lemma ResultWellFormed(m: Module, r: Module)
    requires WellFormed(m) && IsPostProcessed(m, r) && Labelled(m.blocks)
    ensures WellFormed(r) && Labelled(r.blocks)
  {
    hide IsPostProcessed, GraphOf, OwnsBlocks, Labelled, Closed;
    SameBlocks(m, r);
    ResultClosed(m, r);
    LabelledParts(r.blocks);
    forall f <- r.functions ensures OwnsBlocks(r, f) {
      var n :| 0 <= n < |m.functions| && m.functions[n] == f;
      FunctionStays(m, r, n);
    }
  }

  lemma LabelledParts(blocks: map<BlockId, Block>)
    requires Labelled(blocks)
    ensures forall b <- blocks :: |blocks[b].instructions| > 0
  {
  }

  lemma BlocksExist(m: Module, n: nat)
    requires WellFormed(m) && n < |m.functions|
    ensures forall b <- m.functions[n].blocks :: b in m.blocks
  {
    assert OwnsBlocks(m, m.functions[n]);
  }

  lemma GraphKeys(blocks: map<BlockId, Block>)
    ensures GraphOf(blocks).Keys == blocks.Keys
  {
  }

  class Builder {
    var functions: seq<Function>
    var blocks: map<BlockId, Block>
    var decorations: seq<Decoration>

    constructor (m: Module)
      ensures Mod() == m
    {
      functions, blocks, decorations := m.functions, m.blocks, m.decorations;
    }

    ghost function Mod(): Module
      reads this
    {
      Module(functions, blocks, decorations)
    }

    method PostProcessCfg()
      requires WellFormed(Mod())
      modifies this
      ensures IsPostProcessed(old(Mod()), Mod())
      ensures Labelled(old(blocks)) ==> WellFormed(Mod()) && Labelled(blocks)
    {
      ghost var m := Mod();
      var headerForUnreachableContinue, unreachableMerges, unreachableDefinitions, reachable := FindUnreachable();
      LabelledBlocks(m);
      CollectedApart(m, reachable, headerForUnreachableContinue, unreachableMerges);
      RewriteUnreachable(headerForUnreachableContinue, unreachableMerges);
      RemoveDecorations(unreachableDefinitions);
      CollectedRewrites(m, AllCallbacks(m), reachable, headerForUnreachableContinue, unreachableMerges, blocks);
      if Labelled(m.blocks) {
        ResultWellFormed(m, Mod());
      }
    }

    /** Collects the blocks reported dead and the ids defined in dead code. */
    method FindUnreachable()
      returns (headers: map<BlockId, BlockId>, merges: set<BlockId>, definitions: set<Id>,
                                      ghost reachable: set<BlockId>)
      requires WellFormed(Mod())
      ensures Collected(AllCallbacks(Mod()), reachable, headers, merges)
      ensures IsDeadSet(Mod(), definitions)
    {
      hide WellFormed, Collected, Order, Distinct, CalledIn, DeadIn, DefinedInDeadBlock, Closed;
      ghost var m := Mod();
      var reachableBlocks: set<BlockId> := {};
      headers, merges, definitions := map[], {}, {};
      CollectedNothing();
      for fi := 0 to |functions|
        invariant Collected(Callbacks(m, fi), reachableBlocks, headers, merges)
        invariant forall id :: id in definitions <==> DefinedInDeadCode(m, fi, id)
      {
        var f := functions[fi];
        FunctionFacts(m, fi);
        var order := InReadableOrder(GraphOf(blocks), f.entry);
        reachableBlocks, headers, merges := RecordCallbacks(Callbacks(m, fi), order, reachableBlocks, headers, merges);
        FunctionSettled(m, fi);
        HeldByCollected(Callbacks(m, fi + 1), reachableBlocks, headers, merges);
        definitions := CollectDefinitions(AllCallbacks(m), f.blocks, reachableBlocks, headers, merges, definitions);
      }
      AllCallbacksIs(m);
      reachable := reachableBlocks;
    }

    /** The callback invoked for each block of `order`. */
    method RecordCallbacks(ghost before: seq<Callback>, order: seq<Callback>, reachable0: set<BlockId>,
                           headers0: map<BlockId, BlockId>, merges0: set<BlockId>)
      returns (reachable: set<BlockId>, headers: map<BlockId, BlockId>, merges: set<BlockId>)
      requires Distinct(before + order) && Collected(before, reachable0, headers0, merges0)
      ensures Collected(before + order, reachable, headers, merges)
    {
      reachable, headers, merges := reachable0, headers0, merges0;
      assert before + order[..0] == before;
      for i := 0 to |order|
        invariant Collected(before + order[..i], reachable, headers, merges)
      {
        hide Collected;
        var c := order[i];
        assert before + order[..i + 1] == before + order[..i] + [c];
        DistinctPrefix(before + order[..i + 1], before + order);
        CollectedStep(before + order[..i], c, reachable, headers, merges);
        reachable := reachable + {c.block};
        if c.why == ReachDeadContinue {
          headers := headers[c.block := HeaderOf(c)];
        }
        if c.why == ReachDeadMerge {
          merges := merges + {c.block};
        }
      }
      assert before + order[..|order|] == before + order;
    }

    method CollectDefinitions(ghost log: seq<Callback>, bs: seq<BlockId>, reachable: set<BlockId>,
                              headers: map<BlockId, BlockId>, merges: set<BlockId>, definitions0: set<Id>)
      returns (definitions: set<Id>)
      requires forall b <- bs :: b in blocks && |blocks[b].instructions| > 0
      requires forall b <- bs :: b in reachable <==> CalledIn(log, b)
      requires forall b <- bs :: b in merges || b in headers <==> DeadIn(log, b)
      ensures forall id :: id in definitions <==> id in definitions0 || DefinedInDeadBlock(log, blocks, bs, id)
    {
      definitions := definitions0;
      for bi := 0 to |bs|
        invariant forall id ::
                    id in definitions <==> id in definitions0 || DefinedInDeadBlock(log, blocks, bs[..bi], id)
      {
        var b := bs[bi];
        ghost var before := definitions;
        if b in merges || b in headers {
          definitions := ResultIds(log, b, 1, definitions);
        } else if b !in reachable {
          definitions := ResultIds(log, b, 0, definitions);
        }
        assert forall id ::
            id in definitions <==> id in before || IsDeadDefinition(log, b, blocks[b], |blocks[b].instructions|, id);
        assert bs[..bi + 1] == bs[..bi] + [b];
      }
      assert bs[..|bs|] == bs;
    }

    /** Adds the results of the instructions from `first` on; the ones before are not dead. */
    method ResultIds(ghost log: seq<Callback>, b: BlockId, first: nat, definitions0: set<Id>)
      returns (definitions: set<Id>)
      requires b in blocks && first <= |blocks[b].instructions|
      requires forall k: nat :: DeadAt(log, b, k) <==> k >= first
      ensures forall id :: id in definitions <==>
                id in definitions0 || IsDeadDefinition(log, b, blocks[b], |blocks[b].instructions|, id)
    {
      definitions := definitions0;
      var instructions := blocks[b].instructions;
      for k := first to |instructions|
        invariant forall id :: id in definitions <==> id in definitions0 || IsDeadDefinition(log, b, blocks[b], k, id)
      {
        definitions := definitions + {instructions[k].resultId};
      }
    }

    /** Deletes the contents of unreachable merge blocks and unreachable continue targets. */
    method RewriteUnreachable(headers: map<BlockId, BlockId>, merges: set<BlockId>)
      requires merges !! headers.Keys && merges <= blocks.Keys && headers.Keys <= blocks.Keys
      requires forall b <- blocks :: |blocks[b].instructions| > 0
      modifies this`blocks
      ensures blocks.Keys == old(blocks.Keys)
      ensures forall b <- blocks :: blocks[b] == Rewritten(old(blocks)[b], b, headers, merges)
    {
      var todo := merges;
      while todo != {}
        invariant todo <= merges && blocks.Keys == old(blocks.Keys)
        invariant forall b <- blocks ::
                    blocks[b] == if b in merges - todo then CanonicalMerge(old(blocks)[b]) else old(blocks)[b]
        decreases todo
      {
        var b :| b in todo;
        blocks := blocks[b := CanonicalMerge(blocks[b])];
        todo := todo - {b};
      }
      var left := headers.Keys;
      while left != {}
        invariant left <= headers.Keys && blocks.Keys == old(blocks.Keys)
        invariant forall b <- blocks ::
                    blocks[b] == if b in left then old(blocks)[b] else Rewritten(old(blocks)[b], b, headers, merges)
        decreases left
      {
        var b :| b in left;
        blocks := blocks[b := CanonicalContinue(blocks[b], headers[b])];
        left := left - {b};
      }
    }

    /** Removes the decorations of ids defined in dead code, erasing in place. */
    method RemoveDecorations(dead: set<Id>)
      modifies this`decorations
      ensures decorations == Kept(old(decorations), dead)
    {
      var i := 0;
      ghost var rest := decorations;
      while i < |decorations|
        invariant 0 <= i <= |decorations| && rest == decorations[i..]
        invariant Kept(old(decorations), dead) == decorations[..i] + Kept(rest, dead)
        decreases |decorations| - i
      {
        rest := rest[1..];
        if decorations[i].target in dead {
          decorations := decorations[..i] + decorations[i + 1..];
        } else {
          i := i + 1;
        }
      }
    }
  }

  // ---------- behaviour ----------

  /** Exactly the same walks start at `entry`, and each goes through the same blocks with the same contents. */
  ghost predicate SameBehaviour(m: Module, r: Module, entry: BlockId) {
    forall p, b ::
      && (IsPath(GraphOf(m.blocks), p, entry, b) <==> IsPath(GraphOf(r.blocks), p, entry, b))
      && (IsPath(GraphOf(m.blocks), p, entry, b) ==>
            forall x <- p :: x in m.blocks ==> x in r.blocks && r.blocks[x] == m.blocks[x])
  }

  /** Whatever the traversal reports dead although control reaches it has its canonical form already. */
  ghost predicate LateReachedAreCanonical(m: Module, f: Function)
    requires WellFormed(m) && f in m.functions
  {
    forall c <- Order(m, f) | c.why != ReachViaControlFlow && Reachable(GraphOf(m.blocks), f.entry, c.block) ::
      c.block in m.blocks && Canonical(m.blocks[c.block], c) == m.blocks[c.block]
  }

  lemma ReachableUntouched(m: Module, r: Module, n: nat, b: BlockId)
    requires WellFormed(m) && IsPostProcessed(m, r) && n < |m.functions|
    requires LateReachedAreCanonical(m, m.functions[n])
    requires b in m.functions[n].blocks && Reachable(GraphOf(m.blocks), m.functions[n].entry, b)
    ensures b in m.blocks && b in r.blocks && r.blocks[b] == m.blocks[b]
  {
    FunctionFacts(m, n);
    AllCallbacksIs(m);
    if DeadIn(AllCallbacks(m), b) {
      var c :| c in AllCallbacks(m) && c.block == b && c.why != ReachViaControlFlow;
      CallbacksOfFunction(m, n, |m.functions|, c);
    }
  }

  /** A walk of the module goes through untouched blocks only, so it is a walk of the processed one. */
  lemma WalkSurvives(m: Module, r: Module, n: nat, p: seq<BlockId>, b: BlockId)
    requires WellFormed(m) && IsPostProcessed(m, r) && n < |m.functions|
    requires LateReachedAreCanonical(m, m.functions[n]) && IsPath(GraphOf(m.blocks), p, m.functions[n].entry, b)
    ensures IsPath(GraphOf(r.blocks), p, m.functions[n].entry, b)
    ensures forall x <- p :: x in m.blocks && x in r.blocks && r.blocks[x] == m.blocks[x]
  {
    var g, e := GraphOf(m.blocks), m.functions[n].entry;
    assert OwnsBlocks(m, m.functions[n]);
    PathStays(g, m.functions[n].blocks, p, e, b);
    hide WellFormed, IsPostProcessed, LateReachedAreCanonical, OwnsBlocks;
    forall k | 0 <= k < |p| ensures p[k] in m.blocks && p[k] in r.blocks && r.blocks[p[k]] == m.blocks[p[k]] {
      PathPrefix(g, p, e, b, k);
      ReachableUntouched(m, r, n, p[k]);
    }
    forall k | 0 <= k < |p| - 1 ensures Edge(GraphOf(r.blocks), p[k], p[k + 1]) {
      assert Edge(g, p[k], p[k + 1]);
    }
  }

  /** Conversely, the processed module has no other walks. */
  lemma {:induction false} WalkIsOld(m: Module, r: Module, n: nat, p: seq<BlockId>, b: BlockId)
    requires WellFormed(m) && IsPostProcessed(m, r) && n < |m.functions|
    requires LateReachedAreCanonical(m, m.functions[n]) && IsPath(GraphOf(r.blocks), p, m.functions[n].entry, b)
    ensures IsPath(GraphOf(m.blocks), p, m.functions[n].entry, b)
    decreases |p|
  {
    if |p| > 1 {
      var q, e := p[..|p| - 1], m.functions[n].entry;
      hide WellFormed, IsPostProcessed, LateReachedAreCanonical, IsPath;
      assert 0 < |q| && q == p[..|p| - 2 + 1];
      PathPrefix(GraphOf(r.blocks), p, e, b, |p| - 2);
      WalkIsOld(m, r, n, q, p[|p| - 2]);
      WalkSurvives(m, r, n, q, p[|p| - 2]);
      assert q[|q| - 1] == p[|p| - 2];
      PathExtends(GraphOf(r.blocks), GraphOf(m.blocks), p, e, b);
    }
  }

  lemma CanonicalPreserves(m: Module, r: Module, n: nat)
    requires WellFormed(m) && IsPostProcessed(m, r) && n < |m.functions|
    requires LateReachedAreCanonical(m, m.functions[n])
    ensures SameBehaviour(m, r, m.functions[n].entry)
  {
    hide WellFormed, IsPath, IsPostProcessed, LateReachedAreCanonical;
    var g, e := GraphOf(m.blocks), m.functions[n].entry;
    forall p, b
      ensures IsPath(g, p, e, b) <==> IsPath(GraphOf(r.blocks), p, e, b)
      ensures IsPath(g, p, e, b) ==> forall x <- p :: x in m.blocks ==> x in r.blocks && r.blocks[x] == m.blocks[x]
    {
      if IsPath(g, p, e, b) {
        WalkSurvives(m, r, n, p, b);
      }
      if IsPath(GraphOf(r.blocks), p, e, b) {
        WalkIsOld(m, r, n, p, b);
      }
    }
  }

  lemma PreservedOnlyIfCanonical(m: Module, r: Module, n: nat, c: Callback)
    requires WellFormed(m) && IsPostProcessed(m, r) && n < |m.functions|
    requires SameBehaviour(m, r, m.functions[n].entry)
    requires c in Order(m, m.functions[n]) && c.why != ReachViaControlFlow
    requires Reachable(GraphOf(m.blocks), m.functions[n].entry, c.block)
    ensures c.block in m.blocks && Canonical(m.blocks[c.block], c) == m.blocks[c.block]
  {
    var f := m.functions[n];
    var p :| IsPath(GraphOf(m.blocks), p, f.entry, c.block);
    assert p[|p| - 1] in p;
    var i :| 0 <= i < |Order(m, f)| && Order(m, f)[i] == c;
    CalledBlocksAreOwned(m, f, i);
    AllCallbacksIs(m);
    CallbacksOfFunction(m, n, |m.functions|, c);
  }

  /** The pass preserves every walk from a function's entry, and the code met on it, if and only if
      each block it reports dead and control reaches was canonical to begin with. */
  lemma BehaviourPreservedIff(m: Module, r: Module, n: nat)
    requires WellFormed(m) && IsPostProcessed(m, r) && n < |m.functions|
    ensures SameBehaviour(m, r, m.functions[n].entry) <==> LateReachedAreCanonical(m, m.functions[n])
  {
    var f := m.functions[n];
    if LateReachedAreCanonical(m, f) {
      CanonicalPreserves(m, r, n);
    }
    if SameBehaviour(m, r, f.entry) {
      LabelledBlocks(m);
      hide WellFormed, IsPostProcessed, SameBehaviour, Reachable, Order;
      forall c <- Order(m, f) | c.why != ReachViaControlFlow && Reachable(GraphOf(m.blocks), f.entry, c.block)
        ensures c.block in m.blocks && Canonical(m.blocks[c.block], c) == m.blocks[c.block]
      {
        PreservedOnlyIfCanonical(m, r, n, c);
      }
    }
  }

  /** Under structured control flow the pass preserves behaviour. */
  lemma StructuredBehaviourPreserved(m: Module, r: Module, n: nat)
    requires WellFormed(m) && IsPostProcessed(m, r) && n < |m.functions|
    requires Structured(GraphOf(m.blocks), m.functions[n].entry)
    ensures SameBehaviour(m, r, m.functions[n].entry)
  {
    FunctionFacts(m, n);
    StructuredIsComplete(GraphOf(m.blocks), m.functions[n].entry);
    forall c <- Order(m, m.functions[n]) | c.why != ReachViaControlFlow
      ensures !Reachable(GraphOf(m.blocks), m.functions[n].entry, c.block)
    {
      var i :| 0 <= i < |Order(m, m.functions[n])| && Order(m, m.functions[n])[i] == c;
    }
    BehaviourPreservedIff(m, r, n);
  }

  // ---------- decorations ----------

  /** No id is the result of two instructions. */
  ghost predicate UniqueResults(m: Module) {
    forall b, b', k, k' | b in m.blocks && b' in m.blocks && 0 <= k < |m.blocks[b].instructions|
        && 0 <= k' < |m.blocks[b'].instructions| ::
      m.blocks[b].instructions[k].resultId == m.blocks[b'].instructions[k'].resultId != 0 ==> b == b' && k == k'
  }

  lemma {:induction false} KeptCounts(ds: seq<Decoration>, dead: set<Id>, d: Decoration)
    ensures multiset(Kept(ds, dead))[d] == if d.target in dead then 0 else multiset(ds)[d]
  {
    if ds != [] {
      KeptCounts(ds[1..], dead, d);
      assert ds == [ds[0]] + ds[1..];
    }
  }

  /** A decoration survives, however often it occurs, unless its target is defined in dead code. */
  lemma DecorationsKeptIff(m: Module, r: Module, d: Decoration)
    requires WellFormed(m) && IsPostProcessed(m, r)
    ensures multiset(r.decorations)[d] ==
            if DefinedInDeadCode(m, |m.functions|, d.target) then 0 else multiset(m.decorations)[d]
  {
    var dead :| IsDeadSet(m, dead) && r.decorations == Kept(m.decorations, dead);
    KeptCounts(m.decorations, dead, d);
  }

  /** With unique results, the id of instruction `k` of block `b` loses its decorations exactly if the
      instruction is dead: labels of blocks reported dead keep theirs. */
  lemma DeadDefinitionIff(m: Module, n: nat, b: BlockId, k: nat)
    requires WellFormed(m) && UniqueResults(m) && n < |m.functions| && b in m.functions[n].blocks
    requires b in m.blocks && k < |m.blocks[b].instructions| && m.blocks[b].instructions[k].resultId != 0
    ensures DefinedInDeadCode(m, |m.functions|, m.blocks[b].instructions[k].resultId) <==> DeadAt(AllCallbacks(m), b, k)
  {
    var id, log := m.blocks[b].instructions[k].resultId, AllCallbacks(m);
    if DeadAt(log, b, k) {
      assert IsDeadDefinition(log, b, m.blocks[b], |m.blocks[b].instructions|, id);
      assert DefinedInDeadBlock(log, m.blocks, m.functions[n].blocks, id);
    }
    if DefinedInDeadCode(m, |m.functions|, id) {
      var i :| 0 <= i < |m.functions| && DefinedInDeadBlock(log, m.blocks, m.functions[i].blocks, id);
      var b' :| b' in m.functions[i].blocks && b' in m.blocks
                && IsDeadDefinition(log, b', m.blocks[b'], |m.blocks[b'].instructions|, id);
      var k' :| 0 <= k' < |m.blocks[b'].instructions| && DeadAt(log, b', k')
          && m.blocks[b'].instructions[k'].resultId == id;
      assert b == b' && k == k';
    }
  }

  /** The id is the result of an instruction of the block. */
  predicate Defines(b: Block, id: Id) {
    exists j | 0 <= j < |b.instructions| :: b.instructions[j].resultId == id
  }

  /** What is defined in a block afterwards: of a block reported dead, the label. */
  lemma StillDefined(m: Module, r: Module, b: BlockId, k: nat)
    requires WellFormed(m) && IsPostProcessed(m, r) && UniqueResults(m) && b in m.blocks
    requires k < |m.blocks[b].instructions| && m.blocks[b].instructions[k].resultId != 0
    ensures b in r.blocks
    ensures Defines(r.blocks[b], m.blocks[b].instructions[k].resultId) <==> k == 0 || !DeadIn(AllCallbacks(m), b)
  {
    hide *;
    if DeadIn(AllCallbacks(m), b) {
      var n, c := ReportedIn(m, b);
      ReportedHeader(m, n, c);
      RewrittenBlock(m, r, c);
      OneResult(m, b, k);
      LabelIsLeft(m.blocks[b], c, k);
    } else {
      UntouchedBlock(m, r, b);
      DefinedAt(m.blocks[b], k);
    }
  }

  lemma OneResult(m: Module, b: BlockId, k: nat)
    requires UniqueResults(m) && b in m.blocks && k < |m.blocks[b].instructions|
    requires m.blocks[b].instructions[k].resultId != 0
    ensures m.blocks[b].instructions[0].resultId == m.blocks[b].instructions[k].resultId ==> k == 0
  {
  }

  lemma LabelIsLeft(was: Block, c: Callback, k: nat)
    requires k < |was.instructions| && was.instructions[k].resultId != 0
    requires was.instructions[0].resultId == was.instructions[k].resultId ==> k == 0
    ensures Defines(Canonical(was, c), was.instructions[k].resultId) <==> k == 0
  {
    assert Canonical(was, c).instructions[0] == was.instructions[0];
  }

  lemma DefinedAt(b: Block, k: nat)
    requires k < |b.instructions|
    ensures Defines(b, b.instructions[k].resultId)
  {
  }

  /** Of the decorations of ids defined in blocks, exactly those stay whose id is still defined in a block that the
      traversal visits. */
  lemma DecoratedIsDefined(m: Module, r: Module, n: nat, b: BlockId, k: nat, d: Decoration)
    requires WellFormed(m) && IsPostProcessed(m, r) && UniqueResults(m) && n < |m.functions|
    requires b in m.functions[n].blocks && b in m.blocks && k < |m.blocks[b].instructions|
    requires m.blocks[b].instructions[k].resultId == d.target != 0 && d in m.decorations
    ensures b in r.blocks
    ensures d in r.decorations <==> CalledIn(AllCallbacks(m), b) && Defines(r.blocks[b], d.target)
  {
    StillDefined(m, r, b, k);
    DeadDefinitionIff(m, n, b, k);
    DecorationsKeptIff(m, r, d);
    hide WellFormed, IsPostProcessed, AllCallbacks, UniqueResults, Defines;
    assert d in r.decorations <==> multiset(r.decorations)[d] > 0;
    assert multiset(m.decorations)[d] > 0;
    assert DeadIn(AllCallbacks(m), b) ==> CalledIn(AllCallbacks(m), b);
  }

  /** In structured code no decoration of an id defined where control can reach is lost. */
  lemma ReachableDecorationsKept(m: Module, r: Module, n: nat, b: BlockId, k: nat, d: Decoration)
    requires WellFormed(m) && IsPostProcessed(m, r) && UniqueResults(m) && n < |m.functions|
    requires Structured(GraphOf(m.blocks), m.functions[n].entry)
    requires b in m.functions[n].blocks && Reachable(GraphOf(m.blocks), m.functions[n].entry, b)
    requires b in m.blocks && k < |m.blocks[b].instructions| && m.blocks[b].instructions[k].resultId == d.target != 0
    ensures multiset(r.decorations)[d] == multiset(m.decorations)[d]
  {
    var f, g, log := m.functions[n], GraphOf(m.blocks), AllCallbacks(m);
    FunctionFacts(m, n);
    AllCallbacksIs(m);
    StructuredIsComplete(g, f.entry);
    assert FlowCalled(Order(m, f), b);
    var i :| 0 <= i < |Order(m, f)| && IsFlow(Order(m, f), i) && Order(m, f)[i].block == b;
    var c := Order(m, f)[i];
    CallbacksOfFunction(m, n, |m.functions|, c);
    CallbacksDistinct(m, |m.functions|);
    DistinctCallbacks(log, c);
    DeadDefinitionIff(m, n, b, k);
    DecorationsKeptIff(m, r, d);
  }

  // ---------- unstructured code ----------

  /** Block 1 declares 3 as its merge block and goes to 4 only; control reaches 3 from 2 only after
      block 1 has been finished and 3 has been reported dead. */
  const LATE_REACH: Graph := map[
    0 := Shape(NoMerge, [1, 2]),
    1 := Shape(SelectionMerge(3), [4]),
    2 := Shape(NoMerge, [3]),
    3 := Shape(NoMerge, []),
    4 := Shape(NoMerge, [])]

  lemma LateReachIsReportedDead()
    ensures Closed(LATE_REACH) && Reachable(LATE_REACH, 0, 3)
    ensures Callback(3, ReachDeadMerge, SomeBlock(1)) in ReadableOrderOf(LATE_REACH, 0)
  {
    var g := LATE_REACH;
    assert IsPath(g, [0, 2, 3], 0, 3);
    var a := Entered(g, Marked(State({}, {}, {}, []), 0, ReachViaControlFlow), 0, ReachViaControlFlow, NoBlock);
    var d := VisitsOne(a);
    var all := VisitedFrom(g, a, 0, 0);
    assert all == VisitedFrom(g, d, 0, 1);
    assert d.log[3] == Callback(3, ReachDeadMerge, SomeBlock(1));
    assert all.log[3] == d.log[3];
    assert ReadableOrderOf(g, 0) == all.log;
  }

  /** The visit of block 1 from block 0. */
  lemma VisitsOne(a: State) returns (d: State)
    requires a.visited == {0} && a.delayed == {} && a.reached == {0} && |a.log| == 1
    ensures Closed(LATE_REACH)
    ensures d == Visited(LATE_REACH, a, 1, ReachViaControlFlow, NoBlock)
    ensures |d.log| == 4 && d.log[3] == Callback(3, ReachDeadMerge, SomeBlock(1))
  {
    var g := LATE_REACH;
    var b := Entered(g, Marked(a, 1, ReachViaControlFlow), 1, ReachViaControlFlow, NoBlock);
    var c := Entered(g, Marked(b, 4, ReachViaControlFlow), 4, ReachViaControlFlow, NoBlock);
    assert Visited(g, b, 4, ReachViaControlFlow, NoBlock) == c by {
      assert VisitedFrom(g, c, 4, 0) == c;
    }
    assert VisitedFrom(g, b, 1, 0) == VisitedFrom(g, c, 1, 1) == c;
    var r := c.(delayed := c.delayed - {3});
    d := Entered(g, r, 3, ReachDeadMerge, SomeBlock(1));
    assert Visited(g, r, 3, ReachDeadMerge, SomeBlock(1)) == d;
    assert Released(g, c, 1, 3, ReachDeadMerge) == d;
  }

  /** The pass then throws away the code of a block that is executed. */
  lemma LateReachLosesCode(m: Module, r: Module)
    requires WellFormed(m) && IsPostProcessed(m, r)
    requires m.functions == [Function(0, [0, 1, 2, 3, 4])] && GraphOf(m.blocks) == LATE_REACH
    requires 3 in m.blocks && |m.blocks[3].instructions| > 2
    ensures !SameBehaviour(m, r, 0)
  {
    LateReachIsReportedDead();
    BehaviourPreservedIff(m, r, 0);
    assert m.functions[0].entry == 0;
  }

  function Coded(id: BlockId, body: seq<Instruction>, successors: seq<BlockId>): Block {
    Block([Instruction(OpLabel, id, [])] + body, successors)
  }

  const RETURN := Instruction(OpOther(253), 0, [])

  /** Such a module: block 3 computes 10 before it returns. */
  const LATE_MODULE: Module := Module([Function(0, [0, 1, 2, 3, 4])], map[
    0 := Coded(0, [Instruction(OpOther(251), 0, [1, 2])], [1, 2]),
    1 := Coded(1, [Instruction(OpSelectionMerge, 0, [3]), Instruction(OpOther(251), 0, [4])], [4]),
    2 := Coded(2, [Instruction(OpBranch, 0, [3])], [3]),
    3 := Coded(3, [Instruction(OpOther(128), 10, []), RETURN], []),
    4 := Coded(4, [RETURN], [])], [])

  lemma LateModule()
    ensures WellFormed(LATE_MODULE) && GraphOf(LATE_MODULE.blocks) == LATE_REACH
    ensures LATE_MODULE.functions == [Function(0, [0, 1, 2, 3, 4])]
    ensures 3 in LATE_MODULE.blocks && |LATE_MODULE.blocks[3].instructions| > 2
  {
    LateReachIsReportedDead();
    LateGraph();
    LateBlocks();
    hide GraphOf, LATE_REACH, Closed;
    var m := LATE_MODULE;
    assert OwnsBlocks(m, m.functions[0]) by {
      LateEdges();
    }
  }

  lemma LateBlocks()
    ensures LATE_MODULE.blocks.Keys == {0, 1, 2, 3, 4}
    ensures forall b <- LATE_MODULE.blocks :: |LATE_MODULE.blocks[b].instructions| > 0
    ensures |LATE_MODULE.blocks[3].instructions| > 2
  {
  }

  lemma LateGraph()
    ensures GraphOf(LATE_MODULE.blocks) == LATE_REACH
  {
    assert LATE_MODULE.blocks.Keys == LATE_REACH.Keys;
    forall b <- LATE_REACH ensures GraphOf(LATE_MODULE.blocks)[b] == LATE_REACH[b] {
      assert b == 0 || b == 1 || b == 2 || b == 3 || b == 4;
    }
  }

  lemma LateEdges()
    ensures forall a, b | Edge(LATE_REACH, a, b) || IsTarget(LATE_REACH, a, b) :: 1 <= b <= 4
  {
  }

  /** The pass loses code of that module. */
  method LoseCode() returns (b: Builder)
    ensures fresh(b) && !SameBehaviour(LATE_MODULE, b.Mod(), 0)
  {
    LateModule();
    hide WellFormed, IsPostProcessed, SameBehaviour, GraphOf, LATE_MODULE;
    b := new Builder(LATE_MODULE);
    b.PostProcessCfg();
    LateReachLosesCode(LATE_MODULE, b.Mod());
  }
}
