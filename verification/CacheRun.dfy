/** The steps of the buffer cache protocol, performed on the buffer heads of fs/buffer.c. */
module CacheRun {
  import B = BufferCache
  import P = CacheProtocol

  /** A head shows its buffer: all but the data, and why it is locked. */
  predicate Shows(h: B.Header, buf: P.Buf) {
    h.dev == buf.dev && h.block == buf.block && h.dirt == buf.dirt && h.uptodate == buf.uptodate && h.count == buf.count
    && h.lock == !buf.lock.Unlocked?
  }

  predicate AllShow(heads: seq<B.Header>, bufs: seq<P.Buf>) {
    |heads| == |bufs| && forall b | 0 <= b < |heads| :: Shows(heads[b], bufs[b])
  }

  /** find_buffer on the heads is the protocol's Find. */
  lemma FindIs(heads: seq<B.Header>, s: P.State, dev: nat, block: nat, tmp: int)
    requires AllShow(heads, s.bufs) && P.Unique(s) && dev != 0
    requires tmp != B.NULL ==> 0 <= tmp < |heads| && B.Holds(heads[tmp], dev, block)
    requires tmp == B.NULL ==> forall b | 0 <= b < |heads| :: !B.Holds(heads[b], dev, block)
    ensures P.Cached(s, dev, block) <==> tmp != B.NULL
    ensures tmp != B.NULL ==> P.Find(s.bufs, dev, block) == tmp
  {
    if tmp != B.NULL {
      assert Shows(heads[tmp], s.bufs[tmp]) && P.Holds(s.bufs[tmp], dev, block);
    } else {
      forall b | 0 <= b < |s.bufs| ensures !P.Holds(s.bufs[b], dev, block) { assert Shows(heads[b], s.bufs[b]); }
    }
  }

  /** getblk's choice is one the protocol allows. */
  lemma ChoiceIs(heads: seq<B.Header>, bufs: seq<P.Buf>, bh: int)
    requires AllShow(heads, bufs)
    requires bh == B.NULL <==> forall b | 0 <= b < |heads| :: heads[b].count > 0
    requires bh != B.NULL ==> 0 <= bh < |heads| && heads[bh].count == 0 && forall b | 0 <= b < |heads| && heads[b].count == 0 ::
                                B.Badness(heads[bh]) <= B.Badness(heads[b])
    ensures (exists b | 0 <= b < |bufs| :: bufs[b].count == 0) <==> bh != B.NULL
    ensures bh != B.NULL ==> P.IsVictim(bufs, bh)
  {
    if bh != B.NULL {
      assert Shows(heads[bh], bufs[bh]) && bufs[bh].count == 0;
      forall c | 0 <= c < |bufs| && bufs[c].count == 0 ensures P.Badness(bufs[bh]) <= P.Badness(bufs[c]) {
        assert Shows(heads[c], bufs[c]);
      }
    } else {
      forall b | 0 <= b < |bufs| ensures bufs[b].count != 0 { assert Shows(heads[b], bufs[b]); }
    }
  }

  /** One head and its buffer change together. */
  lemma OneShows(heads: seq<B.Header>, heads': seq<B.Header>, bufs: seq<P.Buf>, b: nat, buf: P.Buf)
    requires AllShow(heads, bufs) && b < |bufs| && |heads'| == |heads| && Shows(heads'[b], buf)
    requires forall d | 0 <= d < |heads| && d != b :: B.SameButLinks(heads'[d], heads[d])
    ensures AllShow(heads', bufs[b := buf])
  {
    forall d | 0 <= d < |heads| ensures Shows(heads'[d], bufs[b := buf][d]) { assert Shows(heads[d], bufs[d]); }
  }

  lemma LookFound(s: P.State, a: nat, b: nat)
    requires a < |s.agents| && s.agents[a].Looking? && P.Cached(s, s.agents[a].dev, s.agents[a].block)
    requires b == P.Find(s.bufs, s.agents[a].dev, s.agents[a].block)
    ensures var act, g := P.Look(a, 0), s.agents[a];
            && P.Enabled(s, act)
            && P.Next(s, act) == s.(bufs := s.bufs[b := s.bufs[b].(count := s.bufs[b].count + 1)],
                                    agents := s.agents[a := P.Found(b, g.dev, g.block)])
  {}

  lemma LookChooses(s: P.State, a: nat, bh: int)
    requires a < |s.agents| && s.agents[a].Looking? && !P.Cached(s, s.agents[a].dev, s.agents[a].block)
    requires (exists b | 0 <= b < |s.bufs| :: s.bufs[b].count == 0) <==> bh != B.NULL
    requires bh != B.NULL ==> bh >= 0 && P.IsVictim(s.bufs, bh)
    ensures var act, g := P.Look(a, if bh == B.NULL then 0 else bh), s.agents[a];
            && P.Enabled(s, act)
            && P.Next(s, act) == if bh == B.NULL then s else s.(agents := s.agents[a := P.Victim(bh, g.dev, g.block)])
  {}

  lemma TouchIs(s: P.State, act: P.Action, b: nat)
    requires P.Enabled(s, act) && P.OnBuffer(s, act, b) && b < |s.bufs|
    ensures P.Next(s, act) == s.(bufs := s.bufs[b := P.Next(s, act).bufs[b]])
  {}

  /** The step taken is the one asked for; which buffer a look takes is getblk's choice. */
  predicate Takes(act: P.Action, done: P.Action) { if act.Look? then done.Look? && done.a == act.a else done == act }

  /** Whatever buffers getblk chooses, each action can be taken when its turn comes. */
  ghost predicate Feasible(s: P.State, acts: seq<P.Action>)
    decreases |acts|
  {
    acts == []
    || (P.Enabled(s, acts[0])
        && forall done | Takes(acts[0], done) && P.Enabled(s, done) :: Feasible(P.Next(s, done), acts[1..]))
  }

  class RunningCache {
    const cache: B.Buffers
    var agents: seq<P.Agent>        // where each task is in getblk or its caller
    ghost var state: P.State        // the same cache in the protocol, with the data and the disk

    ghost predicate Valid()
      reads this, cache, cache.heads, cache.hash
    {
      cache.Valid() && P.Inv(state) && state.agents == agents && AllShow(cache.heads[..], state.bufs)
    }

    /** buffer_init; nobody uses the cache yet. */
    constructor (n: nat, users: nat, disk: map<(nat, nat), P.Data>)
      requires n > 0
      ensures Valid() && fresh(cache) && fresh(cache.heads) && fresh(cache.hash) && cache.heads.Length == n
      ensures state.disk == disk && |agents| == users && forall a | 0 <= a < users :: agents[a].Resting?
    {
      cache := new B.Buffers(n);
      agents := seq(users, _ => P.Resting);
      state := P.State(seq(n, _ => P.Buf(0, 0, 0, false, false, P.Unlocked, [])), seq(users, _ => P.Resting), disk);
      new;
      P.InitKeeps(state);
    }

    /** One head's own fields change, as its buffer does. */
    method SetFields(b: nat, count: nat, dirt: bool, uptodate: bool, lock: bool, ghost buf: P.Buf)
      requires cache.Valid() && AllShow(cache.heads[..], state.bufs) && b < cache.heads.Length
      requires P.Holds(buf, cache.heads[b].dev, cache.heads[b].block)
      requires buf.count == count && buf.dirt == dirt && buf.uptodate == uptodate && lock == !buf.lock.Unlocked?
      modifies cache.heads
      ensures cache.Valid() && AllShow(cache.heads[..], state.bufs[b := buf])
    {
      ghost var c := cache.Snap();
      cache.heads[b] := cache.heads[b].(count := count, dirt := dirt, uptodate := uptodate, lock := lock);
      B.FieldsKeep(c, cache.Snap(), b, B.NULL);
      OneShows(c.heads, cache.heads[..], state.bufs, b, buf);
    }

    /** find_buffer, and getblk's choice of a buffer if it fails. */
    method Look(a: nat) returns (ghost done: P.Action)
      requires Valid() && a < |agents| && agents[a].Looking?
      modifies this`agents, this`state, cache.heads
      ensures Valid() && done.Look? && done.a == a && P.Enabled(old(state), done) && state == P.Next(old(state), done)
    {
      ghost var s := state;
      var dev, block := agents[a].dev, agents[a].block;
      assert P.AgentOk(s, s.agents[a]);
      hide P.Inv, P.Next, P.Enabled, P.IsVictim, P.AgentOk, P.Cached, P.Find;
      var b := cache.FindBuffer(dev, block);
      FindIs(cache.heads[..], s, dev, block, b);
      if b != B.NULL {
        LookFound(s, a, b);
        done := P.Look(a, 0);
        var h := cache.heads[b];
        assert Shows(cache.heads[..][b], s.bufs[b]);
        SetFields(b, h.count + 1, h.dirt, h.uptodate, h.lock, s.bufs[b].(count := s.bufs[b].count + 1));
        agents := agents[a := P.Found(b, dev, block)];
      } else {
        b := cache.ChooseBuffer();
        ChoiceIs(cache.heads[..], s.bufs, b);
        LookChooses(s, a, b);
        done := P.Look(a, if b == B.NULL then 0 else b);
        if b != B.NULL { agents := agents[a := P.Victim(b, dev, block)]; }
      }
      P.NextKeeps(s, done);
      state := P.Next(s, done);
    }

    /** getblk after wait_on_buffer. */
    method Check(a: nat)
      requires Valid() && P.Enabled(state, P.Check(a))
      modifies this`agents, this`state, cache, cache.heads, cache.hash
      ensures Valid() && state == P.Next(old(state), P.Check(a))
    {
      ghost var s := state;
      var b, dev, block := agents[a].b, agents[a].dev, agents[a].block;
      P.NextKeeps(s, P.Check(a));
      assert P.AgentOk(s, s.agents[a]) && Shows(cache.heads[..][b], s.bufs[b]);
      if cache.heads[b].count > 0 {
        agents := agents[a := P.Looking(dev, block)];
      } else if !cache.heads[b].dirt {
        var tmp := cache.FindBuffer(dev, block);
        FindIs(cache.heads[..], s, dev, block, tmp);
        if tmp != B.NULL {
          agents := agents[a := P.Looking(dev, block)];
        } else {
          ghost var heads := cache.heads[..];
          cache.Reuse(b, dev, block);
          OneShows(heads, cache.heads[..], s.bufs, b, P.Buf(dev, block, 1, false, false, P.Unlocked, s.bufs[b].data));
          agents := agents[a := P.Holding(b, dev, block)];
        }
      }
      state := P.Next(s, P.Check(a));
    }

    /** get_hash_table after wait_on_buffer: its recheck finds the block still there. */
    method Wake(a: nat)
      requires Valid() && P.Enabled(state, P.Wake(a))
      modifies this`agents, this`state, cache.heads
      ensures Valid() && state == P.Next(old(state), P.Wake(a)) && agents[a].Holding?
    {
      ghost var s := state;
      var b, dev, block := agents[a].b, agents[a].dev, agents[a].block;
      P.NextKeeps(s, P.Wake(a));
      P.WakeFinds(s, a);
      assert Shows(cache.heads[..][b], s.bufs[b]);
      assert B.Holds(cache.heads[b], dev, block);
      agents := agents[a := P.Holding(b, dev, block)];
      state := P.Next(s, P.Wake(a));
    }

    /** The steps that change one buffer's own fields: its users', its requests', its transfers'. */
    method Touch(act: P.Action, b: nat)
      requires Valid() && P.Enabled(state, act) && P.OnBuffer(state, act, b) && b < cache.heads.Length
      modifies this`state, cache.heads
      ensures Valid() && state == P.Next(old(state), act)
    {
      ghost var s := state;
      P.NextKeeps(s, act);
      ghost var buf := P.Next(s, act).bufs[b];
      var h := cache.heads[b];
      assert Shows(cache.heads[..][b], s.bufs[b]) && P.BufOk(s, b);
      match act {
        case StartRead(_) => SetFields(b, h.count, h.dirt, h.uptodate, h.lock || !h.uptodate, buf);
        case Modify(_, _) => SetFields(b, h.count, true, h.uptodate, h.lock, buf);
        case Overwrite(_, _) => SetFields(b, h.count, true, true, h.lock, buf);
        case Discard(_) => SetFields(b, h.count, false, false, h.lock, buf);
        case Flush(_) => SetFields(b, h.count, h.dirt, h.uptodate, true, buf);
        case Enqueue(_) => SetFields(b, h.count, false, h.uptodate, h.lock, buf);
        case Finish(_) => SetFields(b, h.count, h.dirt, true, false, buf);
      }
      TouchIs(s, act, b);
      state := P.Next(s, act);
    }

    /** brelse. */
    method Release(a: nat)
      requires Valid() && P.Enabled(state, P.Release(a))
      modifies this`agents, this`state, cache.heads
      ensures Valid() && state == P.Next(old(state), P.Release(a))
    {
      ghost var s := state;
      var b := agents[a].b;
      P.NextKeeps(s, P.Release(a));
      P.ReleaseNeverPanics(s, a);
      var h := cache.heads[b];
      assert Shows(cache.heads[..][b], s.bufs[b]);
      SetFields(b, h.count - 1, h.dirt, h.uptodate, h.lock, s.bufs[b].(count := s.bufs[b].count - 1));
      agents := agents[a := P.Resting];
      state := P.Next(s, P.Release(a));
    }

    /** A write reaches the disk; the heads do not change. */
    ghost method Send(b: nat)
      requires Valid() && P.Enabled(state, P.Send(b))
      modifies this`state
      ensures Valid() && state == P.Next(old(state), P.Send(b))
    {
      ghost var s := state;
      P.NextKeeps(s, P.Send(b));
      assert Shows(cache.heads[..][b], s.bufs[b]);
      OneShows(cache.heads[..], cache.heads[..], s.bufs, b, s.bufs[b].(lock := P.Writing(true)));
      state := P.Next(s, P.Send(b));
    }

    /** Any step of the protocol, with the buffer getblk chooses if it is a look. */
    method Perform(act: P.Action) returns (ghost done: P.Action)
      requires Valid() && P.Enabled(state, act)
      modifies this`agents, this`state, cache, cache.heads, cache.hash
      ensures Valid() && P.Enabled(old(state), done) && state == P.Next(old(state), done)
      ensures Takes(act, done)
    {
      done := act;
      ghost var s := state;
      match act
      case Look(a, _) => done := Look(a);
      case Check(a) => Check(a);
      case Wake(a) => Wake(a);
      case Ask(a, dev, block) =>
        P.NextKeeps(s, act);
        agents := agents[a := P.Looking(dev, block)];
        state := P.Next(s, act);
      case Release(a) => Release(a);
      case Send(b) => Send(b);
      case StartRead(a) => Touch(act, agents[a].b);
      case Modify(a, _) => Touch(act, agents[a].b);
      case Overwrite(a, _) => Touch(act, agents[a].b);
      case Discard(a) => Touch(act, agents[a].b);
      case Flush(b) => Touch(act, b);
      case Enqueue(b) => Touch(act, b);
      case Finish(b) => Touch(act, b);
    }

    /** A whole run of the tasks and the disk: it is one of the protocol, and every block reads as on a disk without a
        cache to which the same happened. */
    method PerformAll(acts: seq<P.Action>) returns (ghost done: seq<P.Action>)
      requires Valid() && Feasible(state, acts)
      modifies this`agents, this`state, cache, cache.heads, cache.hash
      ensures Valid() && P.Possible(old(state), done) && state == P.Run(old(state), done)
      ensures |done| == |acts| && forall k | 0 <= k < |acts| :: Takes(acts[k], done[k])
      ensures forall dev: nat, block: nat | dev != 0 ::
                P.View(state, dev, block)
                == P.PlainRun(P.View(old(state), dev, block), P.Events(old(state), done, dev, block))
    {
      hide P.Inv, P.Enabled, P.Next;
      ghost var s := state;
      done := [];
      var i := 0;
      while i < |acts|
        invariant 0 <= i == |done| <= |acts| && Valid() && P.Possible(s, done) && state == P.Run(s, done)
        invariant Feasible(state, acts[i..])
        invariant forall k | 0 <= k < i :: Takes(acts[k], done[k])
      {
        ghost var step := Perform(acts[i]);
        P.RunMore(s, done, step);
        done := done + [step];
        i := i + 1;
      }
      forall dev: nat, block: nat | dev != 0
        ensures P.View(state, dev, block) == P.PlainRun(P.View(s, dev, block), P.Events(s, done, dev, block)) {
        P.CacheIsInvisible(s, done, dev, block);
      }
    }
  }
}
