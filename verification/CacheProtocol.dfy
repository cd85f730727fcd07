/** The buffer cache of fs/buffer.c as a protocol: what tasks do to the buffers between their sleeps, and
    what the disk does meanwhile.  An agent is one getblk or bread from the call to the brelse; a task may
    be several agents at once. */
module CacheProtocol {
  import opened Counting

  type Data = seq<int>

  /** The b_lock of a buffer, with the reason for it: a request looking for a slot of the request table, a
      read, or a write that has or has not reached the disk. */
  datatype Lock = Unlocked | Wants(write: bool) | Reading | Writing(sent: bool)

  datatype Buf = Buf(dev: nat, block: nat, count: int, dirt: bool, uptodate: bool, lock: Lock, data: Data)

  /** Where an agent sleeps: before find_buffer; on a locked buffer that it has counted; on a free buffer it
      wants to reuse; or in the caller of getblk, with its buffer. */
  datatype Agent =
    | Resting
    | Looking(dev: nat, block: nat)
    | Found(b: nat, dev: nat, block: nat)
    | Victim(b: nat, dev: nat, block: nat)
    | Holding(b: nat, dev: nat, block: nat)

  datatype State = State(bufs: seq<Buf>, agents: seq<Agent>, disk: map<(nat, nat), Data>)

  datatype Action =
    | Ask(a: nat, dev: nat, block: nat)
    | Look(a: nat, victim: nat)
    | Wake(a: nat)
    | Check(a: nat)
    | StartRead(a: nat)
    | Modify(a: nat, data: Data)
    | Overwrite(a: nat, data: Data)
    | Discard(a: nat)
    | Release(a: nat)
    | Flush(b: nat)
    | Enqueue(b: nat)
    | Send(b: nat)
    | Finish(b: nat)

  predicate Holds(buf: Buf, dev: nat, block: nat) { buf.dev == dev && buf.block == block }

  predicate Cached(s: State, dev: nat, block: nat) { exists b | 0 <= b < |s.bufs| :: Holds(s.bufs[b], dev, block) }

  /** find_buffer: the buffer that holds the block. */
  function Find(bufs: seq<Buf>, dev: nat, block: nat): (b: nat)
    requires exists b | 0 <= b < |bufs| :: Holds(bufs[b], dev, block)
    ensures b < |bufs| && Holds(bufs[b], dev, block)
  {
    if Holds(bufs[0], dev, block) then 0
    else
      assert exists b | 0 <= b < |bufs[1..]| :: Holds(bufs[1..][b], dev, block) by {
        var b :| 0 <= b < |bufs| && Holds(bufs[b], dev, block);
        assert Holds(bufs[1..][b - 1], dev, block);
      }
      1 + Find(bufs[1..], dev, block)
  }

  function Badness(buf: Buf): nat { (if buf.dirt then 2 else 0) + (if buf.lock.Unlocked? then 0 else 1) }

  /** getblk may reuse b: nobody holds it and no free buffer is better. */
  predicate IsVictim(bufs: seq<Buf>, b: nat) {
    b < |bufs| && bufs[b].count == 0
    && forall c | 0 <= c < |bufs| && bufs[c].count == 0 :: Badness(bufs[b]) <= Badness(bufs[c])
  }

  /** A clean buffer is taken before a dirty one, and of two alike in that one that is not locked. */
  lemma VictimIsBest(bufs: seq<Buf>, b: nat, c: nat)
    requires IsVictim(bufs, b) && c < |bufs| && bufs[c].count == 0
    ensures !bufs[c].dirt ==> !bufs[b].dirt
    ensures !bufs[c].dirt && bufs[c].lock.Unlocked? ==> bufs[b].lock.Unlocked?
    ensures bufs[b].dirt && bufs[c].lock.Unlocked? ==> bufs[b].lock.Unlocked?
  {
    assert Badness(bufs[b]) <= Badness(bufs[c]);
  }

  function DiskAt(s: State, dev: nat, block: nat): Data {
    if (dev, block) in s.disk then s.disk[(dev, block)] else []
  }

  function SetBuf(s: State, b: nat, buf: Buf): State
    requires b < |s.bufs|
  {
    s.(bufs := s.bufs[b := buf])
  }

  function SetAgent(s: State, a: nat, agent: Agent): State
    requires a < |s.agents|
  {
    s.(agents := s.agents[a := agent])
  }

  predicate Enabled(s: State, act: Action) {
    match act
    case Ask(a, dev, _) => a < |s.agents| && s.agents[a].Resting? && dev != 0
    case Look(a, victim) =>
      && a < |s.agents| && s.agents[a].Looking?
      && (!Cached(s, s.agents[a].dev, s.agents[a].block) && (exists b | 0 <= b < |s.bufs| :: s.bufs[b].count == 0)
          ==> IsVictim(s.bufs, victim))
    case Wake(a) => a < |s.agents| && s.agents[a].Found? && s.agents[a].b < |s.bufs|
                    && s.bufs[s.agents[a].b].lock.Unlocked?
    case Check(a) => a < |s.agents| && s.agents[a].Victim? && s.agents[a].b < |s.bufs|
                     && s.bufs[s.agents[a].b].lock.Unlocked?
    case StartRead(a) => a < |s.agents| && s.agents[a].Holding? && s.agents[a].b < |s.bufs|
                         && s.bufs[s.agents[a].b].lock.Unlocked?
    case Modify(a, _) => a < |s.agents| && s.agents[a].Holding? && s.agents[a].b < |s.bufs|
                         && s.bufs[s.agents[a].b].uptodate
    case Overwrite(a, _) => a < |s.agents| && s.agents[a].Holding? && s.agents[a].b < |s.bufs|
                            && s.bufs[s.agents[a].b].lock.Unlocked?
    case Discard(a) => a < |s.agents| && s.agents[a].Holding? && s.agents[a].b < |s.bufs|
                       && s.bufs[s.agents[a].b].lock.Unlocked? && s.bufs[s.agents[a].b].count == 1
    case Release(a) => a < |s.agents| && s.agents[a].Holding? && s.agents[a].b < |s.bufs|
                       && s.bufs[s.agents[a].b].lock.Unlocked?
    case Flush(b) => b < |s.bufs| && s.bufs[b].lock.Unlocked? && s.bufs[b].dirt
    case Enqueue(b) => b < |s.bufs| && s.bufs[b].lock.Wants?
    case Send(b) => b < |s.bufs| && s.bufs[b].lock.Writing?
    case Finish(b) => b < |s.bufs| && (s.bufs[b].lock.Reading? || s.bufs[b].lock == Writing(true))
  }

  /** find_buffer and, if it fails, the choice of a buffer to reuse; with none free the agent sleeps. */
  function DoLook(s: State, a: nat, victim: nat): State
    requires Enabled(s, Look(a, victim))
  {
    var dev, block := s.agents[a].dev, s.agents[a].block;
    if Cached(s, dev, block) then
      var b := Find(s.bufs, dev, block);
      SetAgent(SetBuf(s, b, s.bufs[b].(count := s.bufs[b].count + 1)), a, Found(b, dev, block))
    else if exists b | 0 <= b < |s.bufs| :: s.bufs[b].count == 0 then SetAgent(s, a, Victim(victim, dev, block))
    else s
  }

  /** get_hash_table after wait_on_buffer. */
  function DoWake(s: State, a: nat): State
    requires Enabled(s, Wake(a))
  {
    var g := s.agents[a];
    if Holds(s.bufs[g.b], g.dev, g.block) then SetAgent(s, a, Holding(g.b, g.dev, g.block))
    else SetAgent(SetBuf(s, g.b, s.bufs[g.b].(count := s.bufs[g.b].count - 1)), a, Looking(g.dev, g.block))
  }

  /** getblk after wait_on_buffer: start again, wait for the buffer to be written, or take it. */
  function DoCheck(s: State, a: nat): State
    requires Enabled(s, Check(a))
  {
    var g := s.agents[a];
    if s.bufs[g.b].count > 0 then SetAgent(s, a, Looking(g.dev, g.block))
    else if s.bufs[g.b].dirt then s
    else if Cached(s, g.dev, g.block) then SetAgent(s, a, Looking(g.dev, g.block))
    else SetAgent(SetBuf(s, g.b, Buf(g.dev, g.block, 1, false, false, Unlocked, s.bufs[g.b].data)), a,
                  Holding(g.b, g.dev, g.block))
  }

  function Next(s: State, act: Action): State
    requires Enabled(s, act)
  {
    match act
    case Ask(a, dev, block) => SetAgent(s, a, Looking(dev, block))
    case Look(a, victim) => DoLook(s, a, victim)
    case Wake(a) => DoWake(s, a)
    case Check(a) => DoCheck(s, a)
    case StartRead(a) =>
      var b := s.agents[a].b;
      if s.bufs[b].uptodate then s else SetBuf(s, b, s.bufs[b].(lock := Wants(false)))
    case Modify(a, data) =>
      var b := s.agents[a].b;
      SetBuf(s, b, s.bufs[b].(data := data, dirt := true))
    case Overwrite(a, data) =>
      var b := s.agents[a].b;
      SetBuf(s, b, s.bufs[b].(data := data, dirt := true, uptodate := true))
    case Discard(a) =>
      var b := s.agents[a].b;
      SetBuf(s, b, s.bufs[b].(dirt := false, uptodate := false))
    case Release(a) =>
      var b := s.agents[a].b;
      SetAgent(SetBuf(s, b, s.bufs[b].(count := s.bufs[b].count - 1)), a, Resting)
    case Flush(b) => SetBuf(s, b, s.bufs[b].(lock := Wants(true)))
    case Enqueue(b) =>
      SetBuf(s, b, s.bufs[b].(dirt := false, lock := if s.bufs[b].lock.write then Writing(false) else Reading))
    case Send(b) =>
      SetBuf(s, b, s.bufs[b].(lock := Writing(true))).(disk := s.disk[(s.bufs[b].dev, s.bufs[b].block) := s.bufs[b].data])
    case Finish(b) =>
      SetBuf(s, b, s.bufs[b].(lock := Unlocked, uptodate := true,
                              data := if s.bufs[b].lock.Reading? then DiskAt(s, s.bufs[b].dev, s.bufs[b].block) else s.bufs[b].data))
  }

  // ----- what every step keeps

  predicate Counted(g: Agent) { g.Found? || g.Holding? }

  predicate Counts(g: Agent, b: int) { Counted(g) && g.b == b }

  ghost function Refs(s: State, b: int): set<int> { set a | 0 <= a < |s.agents| && Counts(s.agents[a], b) }

  /** A buffer counts its agents; it is dirty only if up to date; and unless it is dirty or on its way to the
      disk it agrees with the disk. */
  ghost predicate BufOk(s: State, b: nat)
    requires b < |s.bufs|
  {
    var buf := s.bufs[b];
    && buf.count == |Refs(s, b)|
    && (buf.dev == 0 ==> buf.count == 0 && !buf.uptodate && buf.lock.Unlocked?)
    && (buf.dirt ==> buf.uptodate)
    && (match buf.lock
        case Unlocked => true
        case Wants(write) => if write then buf.dirt else !buf.uptodate
        case Reading => !buf.uptodate
        case Writing(_) => buf.uptodate)
    && (buf.uptodate && !buf.dirt && buf.lock != Writing(false) ==> buf.data == DiskAt(s, buf.dev, buf.block))
  }

  /** An agent's buffer holds the agent's block as long as the agent is counted. */
  predicate AgentOk(s: State, g: Agent) {
    match g
    case Resting => true
    case Looking(dev, _) => dev != 0
    case Victim(b, dev, _) => b < |s.bufs| && dev != 0
    case Found(b, dev, block) => b < |s.bufs| && dev != 0 && Holds(s.bufs[b], dev, block)
    case Holding(b, dev, block) => b < |s.bufs| && dev != 0 && Holds(s.bufs[b], dev, block)
  }

  /** No block is in two buffers. */
  ghost predicate Unique(s: State) {
    forall b, c | 0 <= b < |s.bufs| && 0 <= c < |s.bufs| && s.bufs[b].dev != 0
                  && Holds(s.bufs[c], s.bufs[b].dev, s.bufs[b].block) :: b == c
  }

  ghost predicate Inv(s: State) {
    && Unique(s)
    && (forall b | 0 <= b < |s.bufs| :: BufOk(s, b))
    && forall a | 0 <= a < |s.agents| :: AgentOk(s, s.agents[a])
  }

  /** One agent changes, and the counts with it. */
  lemma RefsMove(s: State, a: nat, g: Agent, b: int)
    requires a < |s.agents|
    ensures |Refs(SetAgent(s, a, g), b)| == |Refs(s, b)| - One(Counts(s.agents[a], b)) + One(Counts(g, b))
  {
    CardMove(Refs(s, b), Refs(SetAgent(s, a, g), b), a);
  }

  /** A counted buffer counts. */
  lemma RefCounts(s: State, a: nat, b: nat)
    requires a < |s.agents| && b < |s.bufs| && BufOk(s, b) && Counts(s.agents[a], b)
    ensures s.bufs[b].count > 0
  {
    assert a in Refs(s, b);
  }

  /** An agent that is not counted before or after. */
  lemma AgentKeeps(s: State, a: nat, g: Agent)
    requires Inv(s) && a < |s.agents| && AgentOk(s, g) && !Counted(s.agents[a]) && !Counted(g)
    ensures Inv(SetAgent(s, a, g))
  {
    var s' := SetAgent(s, a, g);
    forall b | 0 <= b < |s'.bufs| ensures BufOk(s', b) { assert BufOk(s, b); RefsMove(s, a, g, b); }
  }

  lemma LookKeeps(s: State, a: nat, victim: nat)
    requires Inv(s) && Enabled(s, Look(a, victim))
    ensures Inv(DoLook(s, a, victim))
  {
    var dev, block := s.agents[a].dev, s.agents[a].block;
    assert AgentOk(s, s.agents[a]);
    if Cached(s, dev, block) {
      var f := Find(s.bufs, dev, block);
      var s' := DoLook(s, a, victim);
      forall b | 0 <= b < |s'.bufs| ensures BufOk(s', b) {
        assert BufOk(s, b);
        RefsMove(s, a, Found(f, dev, block), b);
        assert Refs(s', b) == Refs(SetAgent(s, a, Found(f, dev, block)), b);
      }
    } else if exists b | 0 <= b < |s.bufs| :: s.bufs[b].count == 0 {
      AgentKeeps(s, a, Victim(victim, dev, block));
    }
  }

  /** The recheck of get_hash_table never fails: a counted buffer keeps its block. */
  lemma WakeFinds(s: State, a: nat)
    requires Inv(s) && Enabled(s, Wake(a))
    ensures Holds(s.bufs[s.agents[a].b], s.agents[a].dev, s.agents[a].block)
  {
    assert AgentOk(s, s.agents[a]);
  }

  lemma WakeKeeps(s: State, a: nat)
    requires Inv(s) && Enabled(s, Wake(a))
    ensures Inv(DoWake(s, a))
  {
    WakeFinds(s, a);
    var g := s.agents[a];
    var s' := SetAgent(s, a, Holding(g.b, g.dev, g.block));
    forall b | 0 <= b < |s'.bufs| ensures BufOk(s', b) {
      assert BufOk(s, b);
      RefsMove(s, a, Holding(g.b, g.dev, g.block), b);
    }
  }

  lemma CheckKeeps(s: State, a: nat)
    requires Inv(s) && Enabled(s, Check(a))
    ensures Inv(DoCheck(s, a))
  {
    var g := s.agents[a];
    assert AgentOk(s, g) && BufOk(s, g.b);
    if s.bufs[g.b].count > 0 || Cached(s, g.dev, g.block) {
      if s.bufs[g.b].count > 0 || !s.bufs[g.b].dirt { AgentKeeps(s, a, Looking(g.dev, g.block)); }
    } else if !s.bufs[g.b].dirt {
      TakeKeeps(s, a);
    }
  }

  /** Reusing a buffer is safe: nobody holds it, and no other buffer holds the block. */
  lemma TakeKeeps(s: State, a: nat)
    requires Inv(s) && Enabled(s, Check(a)) && AgentOk(s, s.agents[a])
    requires var g := s.agents[a];
             s.bufs[g.b].count == 0 && !s.bufs[g.b].dirt && !Cached(s, g.dev, g.block)
    ensures Inv(DoCheck(s, a))
  {
    var g := s.agents[a];
    var s' := DoCheck(s, a);
    forall b | 0 <= b < |s'.bufs| ensures BufOk(s', b) {
      assert BufOk(s, b);
      RefsMove(s, a, Holding(g.b, g.dev, g.block), b);
      assert Refs(s', b) == Refs(SetAgent(s, a, Holding(g.b, g.dev, g.block)), b);
    }
    forall c | 0 <= c < |s'.agents| ensures AgentOk(s', s'.agents[c]) {
      assert AgentOk(s, s.agents[c]);
      if c != a && Counts(s.agents[c], g.b) { assert BufOk(s, g.b); RefCounts(s, c, g.b); }
    }
  }

  /** A buffer's own fields change, but not which block it holds nor its count. */
  lemma BufKeeps(s: State, b: nat, buf: Buf)
    requires Inv(s) && b < |s.bufs| && Holds(buf, s.bufs[b].dev, s.bufs[b].block) && buf.count == s.bufs[b].count
    requires BufOk(SetBuf(s, b, buf), b)
    ensures Inv(SetBuf(s, b, buf))
  {
    var s' := SetBuf(s, b, buf);
    forall c | 0 <= c < |s'.bufs| ensures BufOk(s', c) { assert BufOk(s, c); assert Refs(s', c) == Refs(s, c); }
    forall c | 0 <= c < |s'.agents| ensures AgentOk(s', s'.agents[c]) { assert AgentOk(s, s.agents[c]); }
  }

  lemma ReleaseKeeps(s: State, a: nat)
    requires Inv(s) && Enabled(s, Release(a))
    ensures Inv(Next(s, Release(a)))
  {
    var g := s.agents[a];
    var s' := Next(s, Release(a));
    assert BufOk(s, g.b);
    RefCounts(s, a, g.b);
    forall b | 0 <= b < |s'.bufs| ensures BufOk(s', b) {
      assert BufOk(s, b);
      RefsMove(s, a, Resting, b);
      assert Refs(s', b) == Refs(SetAgent(s, a, Resting), b);
    }
    forall c | 0 <= c < |s'.agents| ensures AgentOk(s', s'.agents[c]) { assert AgentOk(s, s.agents[c]); }
  }

  lemma SendKeeps(s: State, b: nat)
    requires Inv(s) && Enabled(s, Send(b))
    ensures Inv(Next(s, Send(b)))
  {
    var s' := Next(s, Send(b));
    assert BufOk(s, b);
    forall c | 0 <= c < |s'.bufs| ensures BufOk(s', c) {
      assert BufOk(s, c);
      assert Refs(s', c) == Refs(s, c);
      if c != b { assert !Holds(s.bufs[c], s.bufs[b].dev, s.bufs[b].block); }
    }
    forall c | 0 <= c < |s'.agents| ensures AgentOk(s', s'.agents[c]) { assert AgentOk(s, s.agents[c]); }
  }

  /** Every step of every agent and of the disk keeps the invariant. */
  lemma NextKeeps(s: State, act: Action)
    requires Inv(s) && Enabled(s, act)
    ensures Inv(Next(s, act))
  {
    match act
    case Ask(a, dev, block) => AgentKeeps(s, a, Looking(dev, block));
    case Look(a, victim) => LookKeeps(s, a, victim);
    case Wake(a) => WakeKeeps(s, a);
    case Check(a) => CheckKeeps(s, a);
    case Release(a) => ReleaseKeeps(s, a);
    case Send(b) => SendKeeps(s, b);
    case Flush(b) => OwnFieldsKeep(s, act, b);
    case Enqueue(b) => OwnFieldsKeep(s, act, b);
    case Finish(b) => OwnFieldsKeep(s, act, b);
    case StartRead(a) => OwnFieldsKeep(s, act, s.agents[a].b);
    case Modify(a, _) => OwnFieldsKeep(s, act, s.agents[a].b);
    case Overwrite(a, _) => OwnFieldsKeep(s, act, s.agents[a].b);
    case Discard(a) => OwnFieldsKeep(s, act, s.agents[a].b);
  }

  /** The buffer an action works on, if it changes nothing but that buffer's own fields. */
  predicate OnBuffer(s: State, act: Action, b: nat) {
    match act
    case Flush(c) => c == b
    case Enqueue(c) => c == b
    case Finish(c) => c == b
    case StartRead(a) => a < |s.agents| && s.agents[a].Holding? && s.agents[a].b == b
    case Modify(a, _) => a < |s.agents| && s.agents[a].Holding? && s.agents[a].b == b
    case Overwrite(a, _) => a < |s.agents| && s.agents[a].Holding? && s.agents[a].b == b
    case Discard(a) => a < |s.agents| && s.agents[a].Holding? && s.agents[a].b == b
    case _ => false
  }

  lemma OwnFieldsKeep(s: State, act: Action, b: nat)
    requires Inv(s) && Enabled(s, act) && OnBuffer(s, act, b)
    ensures Inv(Next(s, act))
  {
    assert BufOk(s, b);
    var s' := Next(s, act);
    assert Refs(s', b) == Refs(s, b);
    if act.StartRead? || act.Modify? || act.Overwrite? || act.Discard? { assert AgentOk(s, s.agents[act.a]); }
    assert BufOk(s', b);
    BufKeeps(s, b, s'.bufs[b]);
    assert s' == SetBuf(s, b, s'.bufs[b]);
  }

  /** brelse never finds a count of zero. */
  lemma ReleaseNeverPanics(s: State, a: nat)
    requires Inv(s) && Enabled(s, Release(a))
    ensures s.bufs[s.agents[a].b].count > 0
  {
    assert AgentOk(s, s.agents[a]) && BufOk(s, s.agents[a].b);
    RefCounts(s, a, s.agents[a].b);
  }

  /** A buffer that anyone has counted is never given to another block. */
  lemma CountedStays(s: State, act: Action, b: nat)
    requires Inv(s) && Enabled(s, act) && b < |s.bufs| && s.bufs[b].count > 0
    ensures Holds(Next(s, act).bufs[b], s.bufs[b].dev, s.bufs[b].block)
  {
  }

  /** After buffer_init. */
  lemma InitKeeps(s: State)
    requires forall b | 0 <= b < |s.bufs| ::
               s.bufs[b].dev == 0 && s.bufs[b].count == 0 && !s.bufs[b].dirt && !s.bufs[b].uptodate && s.bufs[b].lock.Unlocked?
    requires forall a | 0 <= a < |s.agents| :: s.agents[a].Resting?
    ensures Inv(s)
  {
    forall b | 0 <= b < |s.bufs| ensures BufOk(s, b) { assert Refs(s, b) == {}; }
  }

  // ----- the disk as its users see it

  /** The contents of a block: of its buffer if that is up to date, otherwise of the disk. */
  function Logical(s: State, dev: nat, block: nat): Data {
    if Cached(s, dev, block) && s.bufs[Find(s.bufs, dev, block)].uptodate
    then s.bufs[Find(s.bufs, dev, block)].data else DiskAt(s, dev, block)
  }

  /** Whether an action is a write by a user, to which block. */
  predicate WritesTo(s: State, act: Action, dev: nat, block: nat) {
    (act.Modify? || act.Overwrite?) && act.a < |s.agents| && s.agents[act.a].Holding?
    && s.agents[act.a].dev == dev && s.agents[act.a].block == block
  }

  /** free_block gives up what the cache has of a block; what is left of it is what the device has. */
  predicate Discards(s: State, act: Action, dev: nat, block: nat) {
    act.Discard? && act.a < |s.agents| && s.agents[act.a].Holding? && s.agents[act.a].dev == dev && s.agents[act.a].block == block
  }

  lemma LogicalAt(s: State, b: nat, dev: nat, block: nat)
    requires Unique(s) && b < |s.bufs| && dev != 0 && Holds(s.bufs[b], dev, block)
    ensures Cached(s, dev, block) && Find(s.bufs, dev, block) == b
    ensures Logical(s, dev, block) == if s.bufs[b].uptodate then s.bufs[b].data else DiskAt(s, dev, block)
  {
  }

  /** An agent reads the logical disk. */
  lemma HolderReads(s: State, a: nat)
    requires Inv(s) && a < |s.agents| && s.agents[a].Holding? && s.agents[a].b < |s.bufs| && s.bufs[s.agents[a].b].uptodate
    ensures s.bufs[s.agents[a].b].data == Logical(s, s.agents[a].dev, s.agents[a].block)
  {
    assert AgentOk(s, s.agents[a]);
    LogicalAt(s, s.agents[a].b, s.agents[a].dev, s.agents[a].block);
  }

  /** Two states whose buffers hold the same blocks, and the same contents of this block. */
  lemma LogicalSame(s: State, s': State, dev: nat, block: nat)
    requires Unique(s) && Unique(s') && dev != 0 && |s'.bufs| == |s.bufs|
    requires forall b | 0 <= b < |s.bufs| :: s'.bufs[b].dev == s.bufs[b].dev && s'.bufs[b].block == s.bufs[b].block
    requires forall b | 0 <= b < |s.bufs| && Holds(s.bufs[b], dev, block) ::
               (if s'.bufs[b].uptodate then s'.bufs[b].data else DiskAt(s', dev, block))
               == (if s.bufs[b].uptodate then s.bufs[b].data else DiskAt(s, dev, block))
    requires !Cached(s, dev, block) ==> DiskAt(s', dev, block) == DiskAt(s, dev, block)
    ensures Logical(s', dev, block) == Logical(s, dev, block)
  {
    if Cached(s, dev, block) {
      var b := Find(s.bufs, dev, block);
      LogicalAt(s, b, dev, block);
      LogicalAt(s', b, dev, block);
    } else {
      assert !Cached(s', dev, block);
    }
  }

  /** Eviction loses nothing: the buffer was clean, unlocked and so the same as the disk. */
  lemma TakeIsUnseen(s: State, a: nat, dev: nat, block: nat)
    requires Inv(s) && Enabled(s, Check(a)) && dev != 0
    ensures Logical(Next(s, Check(a)), dev, block) == Logical(s, dev, block)
  {
    hide Find;
    NextKeeps(s, Check(a));
    var g := s.agents[a];
    var s' := Next(s, Check(a));
    assert AgentOk(s, g) && BufOk(s, g.b);
    if s'.bufs == s.bufs {
      LogicalSame(s, s', dev, block);
    } else if Holds(s.bufs[g.b], dev, block) {
      LogicalAt(s, g.b, dev, block);
      forall b | 0 <= b < |s.bufs| ensures !Holds(s'.bufs[b], dev, block) { }
    } else if Holds(s'.bufs[g.b], dev, block) {
      LogicalAt(s', g.b, dev, block);
    } else if b :| 0 <= b < |s.bufs| && Holds(s.bufs[b], dev, block) {
      LogicalAt(s, b, dev, block);
      LogicalAt(s', b, dev, block);
    }
  }

  /** Nor does the traffic between a buffer and the disk show. */
  lemma TransferIsUnseen(s: State, act: Action, b: nat, dev: nat, block: nat)
    requires Inv(s) && Enabled(s, act) && dev != 0
    requires act == Flush(b) || act == Enqueue(b) || act == Send(b) || act == Finish(b)
             || (act.StartRead? && s.agents[act.a].b == b)
    ensures Logical(Next(s, act), dev, block) == Logical(s, dev, block)
  {
    NextKeeps(s, act);
    var s' := Next(s, act);
    assert BufOk(s, b);
    forall c | 0 <= c < |s.bufs| && Holds(s.bufs[c], dev, block)
      ensures (if s'.bufs[c].uptodate then s'.bufs[c].data else DiskAt(s', dev, block))
              == (if s.bufs[c].uptodate then s.bufs[c].data else DiskAt(s, dev, block)) {
      if c != b { assert !Holds(s.bufs[b], dev, block); }
    }
    LogicalSame(s, s', dev, block);
  }

  /** Whether an action is a buffer's transfer to the disk, of which block. */
  predicate Sends(s: State, act: Action, dev: nat, block: nat) {
    act.Send? && act.b < |s.bufs| && Holds(s.bufs[act.b], dev, block)
  }

  /** What happens to one block: its users write it or give it up, or it is written back. */
  datatype Event = Quiet | Wrote(data: Data) | Back | GivenUp

  function EventOf(s: State, act: Action, dev: nat, block: nat): Event {
    if WritesTo(s, act, dev, block) then Wrote(act.data)
    else if Discards(s, act, dev, block) then GivenUp
    else if Sends(s, act, dev, block) then Back
    else Quiet
  }

  /** One block of a disk without a cache: what it holds, and what it held when it was last written back. */
  datatype Plain = Plain(contents: Data, kept: Data)

  function PlainStep(p: Plain, e: Event): Plain {
    match e
    case Quiet => p
    case Wrote(data) => p.(contents := data)
    case Back => p.(kept := p.contents)
    case GivenUp => p.(contents := p.kept)
  }

  /** A block as its users and the device see it. */
  function View(s: State, dev: nat, block: nat): Plain { Plain(Logical(s, dev, block), DiskAt(s, dev, block)) }

  /** The device changes only when a block is written back, to what its users see. */
  lemma DiskIs(s: State, act: Action, dev: nat, block: nat)
    requires Inv(s) && Enabled(s, act) && dev != 0
    ensures DiskAt(Next(s, act), dev, block) == if Sends(s, act, dev, block) then Logical(s, dev, block) else DiskAt(s, dev, block)
  {
    if Sends(s, act, dev, block) {
      assert BufOk(s, act.b);
      LogicalAt(s, act.b, dev, block);
    }
  }

  /** Only a user's write changes the logical disk, at its own block and to what it wrote, and a block given up is
      what was last written back: neither reuse of buffers, reads, writing back nor any interleaving of them
      changes it. */
  lemma Coherent(s: State, act: Action, dev: nat, block: nat)
    requires Inv(s) && Enabled(s, act) && dev != 0
    ensures View(Next(s, act), dev, block) == PlainStep(View(s, dev, block), EventOf(s, act, dev, block))
  {
    DiskIs(s, act, dev, block);
    if act.Check? {
      TakeIsUnseen(s, act.a, dev, block);
    } else if act.Modify? || act.Overwrite? || act.Discard? {
      UseIsSeen(s, act, dev, block);
    } else if act.Look? || act.Wake? || act.Ask? || act.Release? {
      CountingIsUnseen(s, act, dev, block);
    } else {
      TransferIsUnseen(s, act, if act.StartRead? then s.agents[act.a].b else act.b, dev, block);
    }
  }

  /** What a user does to its buffer is seen in that buffer's block. */
  lemma UseIsSeen(s: State, act: Action, dev: nat, block: nat)
    requires Inv(s) && Enabled(s, act) && dev != 0 && (act.Modify? || act.Overwrite? || act.Discard?)
    ensures Logical(Next(s, act), dev, block) == if WritesTo(s, act, dev, block) then act.data
                                                 else if Discards(s, act, dev, block) then DiskAt(s, dev, block)
                                                 else Logical(s, dev, block)
  {
    NextKeeps(s, act);
    var s' := Next(s, act);
    assert AgentOk(s, s.agents[act.a]);
    if WritesTo(s, act, dev, block) || Discards(s, act, dev, block) {
      LogicalAt(s', s.agents[act.a].b, dev, block);
    } else {
      LogicalSame(s, s', dev, block);
    }
  }

  /** Searching, sleeping and releasing change counts only. */
  lemma CountingIsUnseen(s: State, act: Action, dev: nat, block: nat)
    requires Inv(s) && Enabled(s, act) && dev != 0 && (act.Look? || act.Wake? || act.Ask? || act.Release?)
    ensures Logical(Next(s, act), dev, block) == Logical(s, dev, block)
  {
    hide Find;
    NextKeeps(s, act);
    LogicalSame(s, Next(s, act), dev, block);
  }

  // ----- whole runs

  predicate Possible(s: State, acts: seq<Action>)
    decreases |acts|
  {
    acts == [] || (Enabled(s, acts[0]) && Possible(Next(s, acts[0]), acts[1..]))
  }

  function Run(s: State, acts: seq<Action>): State
    requires Possible(s, acts)
    decreases |acts|
  {
    if acts == [] then s else Run(Next(s, acts[0]), acts[1..])
  }

  /** What happens to one block in a run. */
  function Events(s: State, acts: seq<Action>, dev: nat, block: nat): seq<Event>
    requires Possible(s, acts)
    decreases |acts|
  {
    if acts == [] then [] else [EventOf(s, acts[0], dev, block)] + Events(Next(s, acts[0]), acts[1..], dev, block)
  }

  /** The disk without a cache goes by the events alone. */
  function PlainRun(p: Plain, es: seq<Event>): Plain
    decreases |es|
  {
    if es == [] then p else PlainRun(PlainStep(p, es[0]), es[1..])
  }

  /** The cache is invisible: after any run, in any interleaving, every block reads as it would on a disk
      without a cache to which the same happened, and the device holds what was last written back; and the
      invariant still holds. */
  lemma {:induction false} CacheIsInvisible(s: State, acts: seq<Action>, dev: nat, block: nat)
    requires Inv(s) && Possible(s, acts) && dev != 0
    ensures Inv(Run(s, acts))
    ensures View(Run(s, acts), dev, block) == PlainRun(View(s, dev, block), Events(s, acts, dev, block))
    decreases |acts|
  {
    if acts != [] {
      NextKeeps(s, acts[0]);
      Coherent(s, acts[0], dev, block);
      CacheIsInvisible(Next(s, acts[0]), acts[1..], dev, block);
    }
  }

  /** One more action at the end of a run. */
  lemma {:induction false} RunMore(s: State, acts: seq<Action>, act: Action)
    requires Possible(s, acts) && Enabled(Run(s, acts), act)
    ensures Possible(s, acts + [act]) && Run(s, acts + [act]) == Next(Run(s, acts), act)
    decreases |acts|
  {
    if acts == [] {
      assert acts + [act] == [act] && [act][1..] == [];
    } else {
      RunMore(Next(s, acts[0]), acts[1..], act);
      assert (acts + [act])[1..] == acts[1..] + [act];
    }
  }

  // ----- what the calls bring about

  /** ll_rw_block(READ) and wait_on_buffer: a buffer that is not up to date is locked, read and unlocked, and then has the
      block's contents; one that is up to date is left alone. */
  lemma ReadFills(s: State, a: nat)
    requires Inv(s) && Enabled(s, StartRead(a))
    ensures var g, s1 := s.agents[a], Next(s, StartRead(a));
            && AgentOk(s, g)
            && if s.bufs[g.b].uptodate then s1 == s
               else && s1.bufs[g.b].lock == Wants(false) && Possible(s1, [Enqueue(g.b), Finish(g.b)])
                    && var n := Run(s1, [Enqueue(g.b), Finish(g.b)]);
                       n == SetBuf(s, g.b, s.bufs[g.b].(uptodate := true, data := Logical(s, g.dev, g.block)))
  {
    var g, s1 := s.agents[a], Next(s, StartRead(a));
    assert AgentOk(s, g) && BufOk(s, g.b);
    if !s.bufs[g.b].uptodate {
      LogicalAt(s, g.b, g.dev, g.block);
      TwoActions(s1, Enqueue(g.b), Finish(g.b));
    }
  }

  lemma TwoActions(s: State, x: Action, y: Action)
    requires Enabled(s, x) && Enabled(Next(s, x), y)
    ensures Possible(s, [x, y]) && Run(s, [x, y]) == Next(Next(s, x), y)
  {
    assert [x, y][1..] == [y] && [y][1..] == [];
    assert Run(s, [x, y]) == Run(Next(s, x), [y]) && Run(Next(s, x), [y]) == Run(Next(Next(s, x), y), []);
  }

  lemma WriteBackRuns(s: State, b: nat)
    requires Enabled(s, Flush(b)) && s.bufs[b].uptodate
    ensures var buf, acts := s.bufs[b], [Flush(b), Enqueue(b), Send(b), Finish(b)];
            && Next(s, Flush(b)).bufs[b].lock == Wants(true) && Possible(s, acts)
            && Run(s, acts) == SetBuf(s, b, buf.(dirt := false)).(disk := s.disk[(buf.dev, buf.block) := buf.data])
  {
    var s2 := Next(Next(s, Flush(b)), Enqueue(b));
    TwoActions(s, Flush(b), Enqueue(b));
    TwoActions(s2, Send(b), Finish(b));
    RunApp(s, [Flush(b), Enqueue(b)], [Send(b), Finish(b)]);
    assert [Flush(b), Enqueue(b)] + [Send(b), Finish(b)] == [Flush(b), Enqueue(b), Send(b), Finish(b)];
  }

  /** ll_rw_block(WRITE) and its completion: the device has what users see, and the buffer is clean. */
  lemma WriteBackStores(s: State, b: nat)
    requires Inv(s) && Enabled(s, Flush(b))
    ensures var buf, acts := s.bufs[b], [Flush(b), Enqueue(b), Send(b), Finish(b)];
            && Next(s, Flush(b)).bufs[b].lock == Wants(true) && Possible(s, acts)
            && Run(s, acts) == SetBuf(s, b, buf.(dirt := false)).(disk := s.disk[(buf.dev, buf.block) := Logical(s, buf.dev, buf.block)])
  {
    assert BufOk(s, b);
    LogicalAt(s, b, s.bufs[b].dev, s.bufs[b].block);
    hide Logical, Inv, BufOk, Next, Run, Possible;
    WriteBackRuns(s, b);
  }

  /** Whoever holds the lock of a buffer, the requests and the disk by themselves unlock it. */
  function Unlocking(b: nat, lock: Lock): seq<Action> {
    match lock
    case Unlocked => []
    case Wants(write) => if write then [Enqueue(b), Send(b), Finish(b)] else [Enqueue(b), Finish(b)]
    case Reading => [Finish(b)]
    case Writing(sent) => if sent then [Finish(b)] else [Send(b), Finish(b)]
  }

  lemma {:induction false} LocksEnd(s: State, b: nat)
    requires b < |s.bufs|
    ensures var acts := Unlocking(b, s.bufs[b].lock);
            Possible(s, acts) && |Run(s, acts).bufs| == |s.bufs| && Run(s, acts).bufs[b].lock.Unlocked?
    decreases |Unlocking(b, s.bufs[b].lock)|
  {
    var acts := Unlocking(b, s.bufs[b].lock);
    if acts != [] {
      assert acts[1..] == Unlocking(b, Next(s, acts[0]).bufs[b].lock);
      LocksEnd(Next(s, acts[0]), b);
    }
  }

  /** getblk in peace: the block's buffer if there is one, otherwise the one chosen, empty. */
  lemma GetblkGets(s: State, a: nat, dev: nat, block: nat, v: nat)
    requires Inv(s) && Enabled(s, Ask(a, dev, block)) && Peaceful(s, dev, block, v)
    ensures var acts := [Ask(a, dev, block), Look(a, v), if Cached(s, dev, block) then Wake(a) else Check(a)];
            && Possible(s, acts) && Inv(Run(s, acts))
            && Run(s, acts)
               == if Cached(s, dev, block) then
                    var b := Find(s.bufs, dev, block);
                    SetAgent(SetBuf(s, b, s.bufs[b].(count := s.bufs[b].count + 1)), a, Holding(b, dev, block))
                  else SetAgent(SetBuf(s, v, Buf(dev, block, 1, false, false, Unlocked, s.bufs[v].data)), a, Holding(v, dev, block))
  {
    var s1 := Next(s, Ask(a, dev, block));
    NextKeeps(s, Ask(a, dev, block));
    assert Cached(s1, dev, block) == Cached(s, dev, block);
    var last := if Cached(s, dev, block) then Wake(a) else Check(a);
    var s2 := Next(s1, Look(a, v));
    NextKeeps(s1, Look(a, v));
    if Cached(s, dev, block) { WakeFinds(s2, a); }
    NextKeeps(s2, last);
    TwoActions(s1, Look(a, v), last);
    assert [Ask(a, dev, block), Look(a, v), last][1..] == [Look(a, v), last];
  }

  /** The block's buffer is not locked, or there is a clean one to reuse. */
  predicate Peaceful(s: State, dev: nat, block: nat, v: nat) {
    if Cached(s, dev, block) then s.bufs[Find(s.bufs, dev, block)].lock.Unlocked?
    else IsVictim(s.bufs, v) && s.bufs[v].lock.Unlocked? && !s.bufs[v].dirt
  }

  /** What bread does in peace. */
  function BreadActs(s: State, a: nat, dev: nat, block: nat, v: nat): seq<Action> {
    var b := if Cached(s, dev, block) then Find(s.bufs, dev, block) else v;
    [Ask(a, dev, block), Look(a, v), if Cached(s, dev, block) then Wake(a) else Check(a)]
    + if Cached(s, dev, block) && s.bufs[b].uptodate then [StartRead(a)] else [StartRead(a), Enqueue(b), Finish(b)]
  }

  function Filled(s: State, b: nat): State
    requires b < |s.bufs|
  {
    if s.bufs[b].uptodate then s
    else SetBuf(s, b, s.bufs[b].(uptodate := true, data := Logical(s, s.bufs[b].dev, s.bufs[b].block)))
  }

  /** A read after what went before. */
  lemma ReadAfter(s: State, acts: seq<Action>, a: nat)
    requires Possible(s, acts) && Inv(Run(s, acts)) && Enabled(Run(s, acts), StartRead(a))
    ensures var s1 := Run(s, acts);
            var b := s1.agents[a].b;
            var more := if s1.bufs[b].uptodate then [StartRead(a)] else [StartRead(a), Enqueue(b), Finish(b)];
            && AgentOk(s1, s1.agents[a]) && Possible(s, acts + more) && Run(s, acts + more) == Filled(s1, b)
  {
    var s1 := Run(s, acts);
    var b := s1.agents[a].b;
    var more := if s1.bufs[b].uptodate then [StartRead(a)] else [StartRead(a), Enqueue(b), Finish(b)];
    ReadFills(s1, a);
    assert more[1..] == if s1.bufs[b].uptodate then [] else [Enqueue(b), Finish(b)];
    hide Logical, Inv, AgentOk;
    RunApp(s, acts, more);
  }

  /** bread in peace: the task holds a buffer with what users see of the block, and they still see it. */
  lemma BreadReads(s: State, a: nat, dev: nat, block: nat, v: nat)
    requires Inv(s) && Enabled(s, Ask(a, dev, block)) && Peaceful(s, dev, block, v)
    ensures Possible(s, BreadActs(s, a, dev, block, v))
    ensures var n, b := Run(s, BreadActs(s, a, dev, block, v)), if Cached(s, dev, block) then Find(s.bufs, dev, block) else v;
            && Inv(n) && |n.agents| == |s.agents| && n.agents[a] == Holding(b, dev, block)
            && b < |n.bufs| && n.bufs[b].uptodate && n.bufs[b].data == Logical(n, dev, block) == Logical(s, dev, block)
            && n.bufs[b].lock.Unlocked? && n.bufs[b].count == if Cached(s, dev, block) then s.bufs[b].count + 1 else 1
  {
    var got := [Ask(a, dev, block), Look(a, v), if Cached(s, dev, block) then Wake(a) else Check(a)];
    GetblkGets(s, a, dev, block, v);
    var s3 := Run(s, got);
    ReadAfter(s, got, a);
    var acts := got + if s3.bufs[s3.agents[a].b].uptodate then [StartRead(a)]
                      else [StartRead(a), Enqueue(s3.agents[a].b), Finish(s3.agents[a].b)];
    assert BreadActs(s, a, dev, block, v) == acts;
    BreadIsQuiet(s, a, dev, block, v);
    var n, b := Filled(s3, s3.agents[a].b), s3.agents[a].b;
    assert n.agents[a] == Holding(b, dev, block) && n.bufs[b].uptodate && n.bufs[b].lock.Unlocked?;
    hide Logical, Inv, Possible, Run, Next, Find, Cached, View, BreadActs, Filled;
    QuietRun(s, acts, dev, block);
    HolderReads(n, a);
    SameView(s, n, dev, block);
  }

  lemma BreadIsQuiet(s: State, a: nat, dev: nat, block: nat, v: nat)
    ensures forall act | act in BreadActs(s, a, dev, block, v) :: Quietly(act)
  {}

  lemma SameView(s: State, n: State, dev: nat, block: nat)
    requires View(n, dev, block) == View(s, dev, block)
    ensures Logical(n, dev, block) == Logical(s, dev, block)
  {}

  /** brelse lets a buffer go. */
  lemma BrelseReleases(s: State, a: nat)
    requires Inv(s) && Enabled(s, Release(a))
    ensures var b, n := s.agents[a].b, Next(s, Release(a));
            && b < |s.bufs| && n.agents == s.agents[a := Resting] && s.bufs[b].count > 0
            && n.bufs == s.bufs[b := s.bufs[b].(count := s.bufs[b].count - 1)]
  {
    ReleaseNeverPanics(s, a);
  }

  lemma {:induction false} RunApp(s: State, acts: seq<Action>, more: seq<Action>)
    requires Possible(s, acts) && Possible(Run(s, acts), more)
    ensures Possible(s, acts + more) && Run(s, acts + more) == Run(Run(s, acts), more)
    decreases |acts|
  {
    hide Next, Enabled;
    if acts == [] {
      assert acts + more == more;
    } else {
      RunApp(Next(s, acts[0]), acts[1..], more);
      assert (acts + more)[1..] == acts[1..] + more;
    }
  }

  predicate Quietly(act: Action) { !act.Modify? && !act.Overwrite? && !act.Discard? && !act.Send? }

  /** Without users' writes and write-backs nobody sees a change. */
  lemma {:induction false} QuietRun(s: State, acts: seq<Action>, dev: nat, block: nat)
    requires Inv(s) && Possible(s, acts) && dev != 0 && forall act | act in acts :: Quietly(act)
    ensures Inv(Run(s, acts)) && View(Run(s, acts), dev, block) == View(s, dev, block)
    decreases |acts|
  {
    if acts != [] {
      NextKeeps(s, acts[0]);
      Coherent(s, acts[0], dev, block);
      assert Quietly(acts[0]) && EventOf(s, acts[0], dev, block) == Quiet;
      QuietRun(Next(s, acts[0]), acts[1..], dev, block);
    }
  }
}
