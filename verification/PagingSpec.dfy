/** The state of mm/memory.c as a value: the reference bytes of mem_map, the page directory, the page
    tables, and the contents of the frames; the invariant they keep; and the eager machine that
    copy-on-write is measured against.

    A frame is named by its page number (address >> 12).  Frames below `low` are kernel memory and have
    no reference byte; frames from `high` on do not exist but still have one. */
module PagingSpec {
  const PAGE_SIZE: nat := 4096
  const ENTRIES: nat := 1024
  const TASK_DIRS: nat := 16
  const TASKS: nat := 64
  const LOW_COPY: nat := 160
  const USED: nat := 100

  type Byte = x: int | 0 <= x < 256
  type Page = seq<Byte>

  /** A page-directory or page-table word: the flag bits 1, 2 and 0x40, and the frame. */
  datatype Pte = Pte(present: bool, rw: bool, dirty: bool, frame: nat)

  const NONE: Pte := Pte(false, false, false, 0)

  /** What get_free_page leaves in a frame, read as bytes and read as words. */
  function ZeroPage(): Page { seq(PAGE_SIZE, _ => 0) }

  function ZeroTable(): seq<Pte> { seq(ENTRIES, _ => NONE) }

  /** The word `page | 7`. */
  function User(frame: nat): Pte { Pte(true, true, false, frame) }

  function ReadOnly(e: Pte): Pte { Pte(e.present, false, e.dirty, e.frame) }

  /** `held` counts the references that are not page-table words: pages the kernel has taken from
      get_free_page and not yet mapped, and the USED marks of mem_init. */
  datatype State = State(low: nat, high: nat, counts: seq<int>, dir: seq<Pte>, table: seq<seq<Pte>>,
                         data: seq<Page>, held: multiset<nat>)

  predicate Managed(s: State, f: int) { s.low <= f < s.low + |s.counts| }

  /** The page-table word for page `i` of directory entry `d`; the zero word where there is no table. */
  function PteAt(s: State, d: int, i: int): Pte {
    if 0 <= d < |s.dir| && s.dir[d].present && s.dir[d].frame < |s.table|
       && 0 <= i < |s.table[s.dir[d].frame]| then s.table[s.dir[d].frame][i] else NONE
  }

  predicate Maps(s: State, d: int, i: int, f: int) { PteAt(s, d, i).present && PteAt(s, d, i).frame == f }

  predicate DirUses(s: State, d: int, f: int) { 0 <= d < |s.dir| && s.dir[d].present && s.dir[d].frame == f }

  /** The places that hold a page-table word. */
  ghost function Places(dirs: nat): set<(int, int)> { set d, i | 0 <= d < dirs && 0 <= i < ENTRIES :: (d, i) }

  ghost function PteRefs(s: State, f: int): set<(int, int)> {
    set r | r in Places(|s.dir|) && Maps(s, r.0, r.1, f)
  }

  ghost function DirRefs(s: State, f: int): set<int> { set d | 0 <= d < |s.dir| && DirUses(s, d, f) }

  ghost function Held(s: State, f: int): nat { if f < 0 then 0 else s.held[f] }

  ghost predicate Shaped(s: State) {
    && 0 < s.low <= s.high <= s.low + |s.counts|
    && |s.dir| == TASKS * TASK_DIRS
    && |s.table| == |s.data| == s.low + |s.counts|
    && (forall f | 0 <= f < |s.table| :: |s.table[f]| == ENTRIES)
    && (forall f | 0 <= f < |s.data| :: |s.data[f]| == PAGE_SIZE)
    && (forall d | 0 <= d < |s.dir| && s.dir[d].present :: s.dir[d].frame < s.high)
    && (forall d, i | PteAt(s, d, i).present :: PteAt(s, d, i).frame < s.high)
  }

  /** The reference byte of f counts its references exactly. */
  ghost predicate Exact(s: State, f: int) {
    Managed(s, f) ==> s.counts[f - s.low] == |PteRefs(s, f)| + |DirRefs(s, f)| + Held(s, f)
  }

  /** A page table belongs to one directory entry and, in managed memory, is nothing else. */
  ghost predicate TableOwned(s: State, f: int) {
    && (forall d, d' | DirUses(s, d, f) && DirUses(s, d', f) :: d == d')
    && forall d | DirUses(s, d, f) && Managed(s, f) :: Held(s, f) == 0 && forall d', i :: !Maps(s, d', i, f)
  }

  /** A managed page is mapped at one address, relative to the start of its tasks, never while held, and
      by one word only if that word is writable. */
  ghost predicate PageShared(s: State, f: int) {
    Managed(s, f) ==>
      && (forall d, i | Maps(s, d, i, f) :: Held(s, f) == 0)
      && forall d, i, d', i' | Maps(s, d, i, f) && Maps(s, d', i', f) ::
           d % TASK_DIRS == d' % TASK_DIRS && i == i' && (PteAt(s, d, i).rw ==> d == d')
  }

  /** Frames that do not exist are marked used for ever. */
  ghost predicate Reserved(s: State, f: int) { Managed(s, f) && s.high <= f ==> Held(s, f) > 0 }

  ghost predicate FrameOk(s: State, f: int) {
    Exact(s, f) && TableOwned(s, f) && PageShared(s, f) && Reserved(s, f)
  }

  ghost predicate Inv(s: State) {
    Shaped(s) && forall f :: FrameOk(s, f)
  }

  /** The kernel's page table for the first `low` frames. */
  function KernelTable(low: nat): (t: seq<Pte>)
    ensures |t| == ENTRIES
  {
    seq(ENTRIES, i requires 0 <= i => if i < low then User(i) else NONE)
  }

  /** The marks of mem_init: USED of them for every frame outside start .. high. */
  ghost function UsedMarks(low: nat, frames: nat, start: nat, high: nat): multiset<nat> {
    if frames == 0 then multiset{}
    else UsedMarks(low, frames - 1, start, high)
           [low + frames - 1 := if start <= low + frames - 1 < high then 0 else USED]
  }

  // ----- the eager machine

  /** What a task sees at one page: nothing, a page of its own, or a page of kernel memory. */
  datatype Seen = Absent | Own(page: Page) | Kernel(frame: nat)

  /** Memory without sharing: one page of contents for each mapped page of each task. */
  datatype Eager = Eager(view: seq<seq<Seen>>, kernel: seq<Page>)

  function See(s: State, d: int, i: int): Seen {
    var e := PteAt(s, d, i);
    if !e.present then Absent
    else if e.frame < s.low then Kernel(e.frame)
    else if e.frame < |s.data| then Own(s.data[e.frame]) else Absent
  }

  function View(s: State): Eager
    requires s.low <= |s.data|
  {
    Eager(seq(|s.dir|, d => seq(ENTRIES, i => See(s, d, i))), s.data[..s.low])
  }

  /** Equality with a view, pointwise. */
  lemma ViewIs(s: State, e: Eager)
    requires s.low <= |s.data|
    requires |e.view| == |s.dir| && e.kernel == s.data[..s.low]
    requires forall d | 0 <= d < |s.dir| :: |e.view[d]| == ENTRIES
    requires forall d, i | 0 <= d < |s.dir| && 0 <= i < ENTRIES :: e.view[d][i] == See(s, d, i)
    ensures View(s) == e
  {
    forall d | 0 <= d < |s.dir| ensures View(s).view[d] == e.view[d] { }
  }

  // ----- the steps that change one word and its reference byte together

  function SetPte(s: State, d: nat, i: nat, e: Pte): State
    requires d < |s.dir| && s.dir[d].frame < |s.table| && i < |s.table[s.dir[d].frame]|
  {
    var f := s.dir[d].frame;
    s.(table := s.table[f := s.table[f][i := e]])
  }

  function AddCount(s: State, f: nat, delta: int): State {
    if Managed(s, f) then s.(counts := s.counts[f - s.low := s.counts[f - s.low] + delta]) else s
  }

  ghost predicate HasPte(s: State, d: int, i: int) {
    0 <= d < |s.dir| && 0 <= i < ENTRIES && s.dir[d].present
  }

  /** get_free_page has chosen frame f. */
  ghost function Claim(s: State, f: nat): State
    requires Shaped(s) && Managed(s, f)
  {
    State(s.low, s.high, s.counts[f - s.low := 1], s.dir, s.table[f := ZeroTable()],
          s.data[f := ZeroPage()], s.held + multiset{f})
  }

  /** A held page is given back. */
  ghost function Unhold(s: State, f: nat): State
    requires Shaped(s) && Managed(s, f)
  {
    AddCount(s, f, -1).(held := s.held - multiset{f})
  }

  /** A held, zeroed page becomes the page table of directory entry d. */
  ghost function PutTable(s: State, d: nat, f: nat): State
    requires Shaped(s) && d < |s.dir|
  {
    s.(dir := s.dir[d := User(f)], held := s.held - multiset{f})
  }

  /** A held page is mapped writable. */
  ghost function PutPte(s: State, d: nat, i: nat, f: nat): State
    requires Shaped(s) && HasPte(s, d, i)
  {
    SetPte(s, d, i, User(f)).(held := s.held - multiset{f})
  }

  /** The word at `to` becomes a read-only copy of the word at `from`, and counts. */
  ghost function Link(s: State, from: nat, to: nat, i: nat): State
    requires Shaped(s) && HasPte(s, from, i) && HasPte(s, to, i)
  {
    AddCount(SetPte(s, to, i, ReadOnly(PteAt(s, from, i))), PteAt(s, from, i).frame, 1)
  }

  /** Page i of directory entry `from` is mapped at `to` as well; a managed page loses the write bit. */
  ghost function Alias(s: State, from: nat, to: nat, i: nat): State
    requires Shaped(s) && HasPte(s, from, i) && HasPte(s, to, i)
  {
    if Managed(s, PteAt(s, from, i).frame) then
      AddCount(SetPte(SetPte(s, from, i, ReadOnly(PteAt(s, from, i))), to, i, ReadOnly(PteAt(s, from, i))),
               PteAt(s, from, i).frame, 1)
    else SetPte(s, to, i, ReadOnly(PteAt(s, from, i)))
  }

  /** A word is cleared and its page, if it had one, loses a reference. */
  ghost function Drop(s: State, d: nat, i: nat): State
    requires Shaped(s) && HasPte(s, d, i)
  {
    SetPte(if PteAt(s, d, i).present then AddCount(s, PteAt(s, d, i).frame, -1) else s, d, i, NONE)
  }

  /** A directory entry is cleared and its page table loses its reference. */
  ghost function DropTable(s: State, d: nat): State
    requires Shaped(s) && d < |s.dir|
  {
    AddCount(s, s.dir[d].frame, -1).(dir := s.dir[d := NONE])
  }

  /** A word to frame f is replaced by a writable word to the held frame g, which gets f's contents. */
  ghost function Split(s: State, d: nat, i: nat, g: nat): State
    requires Shaped(s) && HasPte(s, d, i) && g < |s.data| && PteAt(s, d, i).present
  {
    SetPte(AddCount(s, PteAt(s, d, i).frame, -1), d, i, User(g))
      .(held := s.held - multiset{g}, data := s.data[g := s.data[PteAt(s, d, i).frame]])
  }

  function Poke(page: Page, offset: nat, b: Byte): Page
    requires offset < |page|
  {
    page[offset := b]
  }

  /** The processor stores a byte through a writable word. */
  ghost function Write(s: State, d: nat, i: nat, offset: nat, b: Byte): State
    requires Shaped(s) && HasPte(s, d, i) && PteAt(s, d, i).present && offset < PAGE_SIZE
  {
    var f := PteAt(s, d, i).frame;
    SetPte(s, d, i, Pte(true, PteAt(s, d, i).rw, true, f)).(data := s.data[f := Poke(s.data[f], offset, b)])
  }

  // ----- the steps of the eager machine

  function Put(e: Eager, d: nat, i: nat, seen: Seen): Eager
    requires d < |e.view| && i < |e.view[d]|
  {
    e.(view := e.view[d := e.view[d][i := seen]])
  }

  predicate Framed(e: Eager) {
    |e.view| == TASKS * TASK_DIRS && forall d | 0 <= d < |e.view| :: |e.view[d]| == ENTRIES
  }

  predicate Before(j: int, x: int, k: int, i: int) { 0 <= j && (j < k || (j == k && x < i)) }

  /** What is seen at one page when a fork by copying has got as far as row k and entry i of row k; of
      each row only the first `limit` pages are copied. */
  function ForkCell(e: Eager, from: nat, to: nat, limit: nat, k: nat, i: nat, d: nat, x: nat): Seen
    requires Framed(e) && from + TASK_DIRS <= |e.view| && k <= TASK_DIRS && (i > 0 ==> k < TASK_DIRS)
    requires d < |e.view| && x < ENTRIES
  {
    if Before(d - to, x, k, i) then (if x < limit then e.view[d - to + from][x] else Absent) else e.view[d][x]
  }

  function ForkRow(e: Eager, from: nat, to: nat, limit: nat, k: nat, i: nat, d: nat): seq<Seen>
    requires Framed(e) && from + TASK_DIRS <= |e.view| && k <= TASK_DIRS && (i > 0 ==> k < TASK_DIRS)
    requires d < |e.view|
  {
    seq(ENTRIES, x requires 0 <= x < ENTRIES => ForkCell(e, from, to, limit, k, i, d, x))
  }

  function ForkPart(e: Eager, from: nat, to: nat, limit: nat, k: nat, i: nat): Eager
    requires Framed(e) && from + TASK_DIRS <= |e.view| && k <= TASK_DIRS && (i > 0 ==> k < TASK_DIRS)
  {
    e.(view := seq(|e.view|, d requires 0 <= d < |e.view| => ForkRow(e, from, to, limit, k, i, d)))
  }

  /** Fork by copying every page at once. */
  function EagerFork(e: Eager, from: nat, to: nat, limit: nat, n: nat): Eager
    requires Framed(e) && from + TASK_DIRS <= |e.view| && n <= TASK_DIRS
  {
    e.(view := seq(|e.view|, d requires 0 <= d < |e.view| =>
      if to <= d < to + n then seq(ENTRIES, x requires 0 <= x < ENTRIES =>
        if x < limit then e.view[d - to + from][x] else Absent)
      else e.view[d]))
  }

  /** All pages of n directory entries are given up. */
  function EagerFree(e: Eager, base: nat, n: nat): Eager {
    e.(view := seq(|e.view|, d requires 0 <= d < |e.view| =>
      if base <= d < base + n then seq(ENTRIES, _ => Absent) else e.view[d]))
  }

  /** The first i pages of directory entry d are given up. */
  function FreePart(e: Eager, d: nat, i: nat): Eager
    requires d < |e.view|
  {
    e.(view := e.view[d := seq(|e.view[d]|, x requires 0 <= x < |e.view[d]| => if x < i then Absent else e.view[d][x])])
  }

  /** What a fork leaves in the child's word and in the parent's word. */
  function ChildPte(e: Pte): Pte { if e.present then ReadOnly(e) else NONE }

  function ParentPte(s: State, e: Pte): Pte { if e.present && Managed(s, e.frame) then ReadOnly(e) else e }

  /** The page words after a fork has got as far as row k and entry i of row k. */
  function ForkedPte(s: State, from: nat, to: nat, limit: nat, k: nat, i: nat, d: int, x: int): Pte {
    if Before(d - to, x, k, i) then (if x < limit then ChildPte(PteAt(s, d - to + from, x)) else NONE)
    else if Before(d - from, x, k, i) && x < limit then ParentPte(s, PteAt(s, d, x))
    else PteAt(s, d, x)
  }

  /** The managed frames that no one refers to. */
  ghost function FreeFrames(s: State): set<int> { set f | 0 <= f < |s.counts| && s.counts[f] == 0 }

  // ----- whole runs

  /** What tasks and the processor ask of memory. */
  datatype Op =
    | Fork(from: nat, to: nat, n: nat)
    | Store(d: nat, i: nat, offset: nat, b: Byte)
    | MapEmpty(d: nat, i: nat)
    | Share(from: nat, to: nat, i: nat)
    | Free(base: nat, n: nat)

  /** How it went: done; done by the kernel in its own memory; or refused with nothing changed. */
  datatype Outcome = Done | KernelWrite | Refused

  /** The arguments fork, exec and exit can pass: whole tasks, and the same place in two tasks. */
  predicate Legal(op: Op) {
    match op
    case Fork(from, to, n) =>
      from != to && from % TASK_DIRS == 0 == to % TASK_DIRS && n <= TASK_DIRS
      && from < TASKS * TASK_DIRS && to < TASKS * TASK_DIRS
    case Store(d, i, offset, b) => d < TASKS * TASK_DIRS && i < ENTRIES && offset < PAGE_SIZE
    case MapEmpty(d, i) => d < TASKS * TASK_DIRS && i < ENTRIES
    case Share(from, to, i) =>
      from != to && from % TASK_DIRS == to % TASK_DIRS
      && from < TASKS * TASK_DIRS && to < TASKS * TASK_DIRS && i < ENTRIES
    case Free(base, n) => base != 0 && base + n <= TASKS * TASK_DIRS
  }

  predicate WellFilled(e: Eager) {
    Framed(e) && (forall p | p in e.kernel :: |p| == PAGE_SIZE)
    && forall d, i | 0 <= d < |e.view| && 0 <= i < ENTRIES ::
         (e.view[d][i].Own? ==> |e.view[d][i].page| == PAGE_SIZE)
         && (e.view[d][i].Kernel? ==> e.view[d][i].frame < |e.kernel|)
  }

  /** The same operation on memory without sharing. */
  function EagerStep(e: Eager, op: Op, out: Outcome): Eager
    requires WellFilled(e) && Legal(op)
  {
    if out == Refused then e else
    match op
    case Fork(from, to, n) => EagerFork(e, from, to, if from == 0 then LOW_COPY else ENTRIES, n)
    case Store(d, i, offset, b) => (
      match e.view[d][i]
      case Absent => e
      case Own(page) => Put(e, d, i, Own(Poke(page, offset, b)))
      case Kernel(f) =>
        if out == KernelWrite then e.(kernel := e.kernel[f := Poke(e.kernel[f], offset, b)])
        else Put(e, d, i, Own(Poke(e.kernel[f], offset, b))))
    case MapEmpty(d, i) => Put(e, d, i, Own(ZeroPage()))
    case Share(from, to, i) => Put(e, to, i, e.view[from][i])
    case Free(base, n) => EagerFree(e, base, n)
  }
}
