/** The lock word shared by the spin-based `RwLock` and the sleeping `RwMutex`.

    One 64-bit word packs a writer bit, an upgradeable-reader bit, a
    being-upgraded bit and a reader count. Any number of agents work on it, each
    agent being one attempt to lock together with the guard it may obtain. Every
    atomic read-modify-write of the word is one step, and steps of different
    agents interleave freely; an attempt that fails after having changed the word
    takes that change back in a later step of its own. */
module RwLockWord {
  import opened Bits

  const WORD: nat := 0x1_0000_0000_0000_0000
  const READER: nat := 1
  const WRITER: nat := 0x8000_0000_0000_0000
  const UPGRADEABLE_READER: nat := 0x4000_0000_0000_0000
  const BEING_UPGRADED: nat := 0x2000_0000_0000_0000
  const MAX_READER: nat := 0x1000_0000_0000_0000

  // The masks of the source, which joins the flags with `|`; Bits.ThreeFlags shows that this adds them.
  const READ_BLOCKERS: nat := WRITER + MAX_READER + BEING_UPGRADED
  const WRITER_OR_UP: nat := WRITER + UPGRADEABLE_READER
  const UP_BEING_UPGRADED: nat := UPGRADEABLE_READER + BEING_UPGRADED
  const NOT_WRITER: nat := WORD - 1 - WRITER

  type Agent = nat

  datatype Phase =
    | Idle
    | Reader             // holds a read guard
    | ReaderRollback     // failed `try_read`, the added READER still in the word
    | Upreader           // holds an upgradeable guard
    | UpreaderRollback   // failed `try_upread`, its UPGRADEABLE_READER bit still set
    | Upgrading          // inside `upgrade`, spinning on `try_upgrade`
    | Upgraded           // `try_upgrade` succeeded, the upgradeable guard not yet dropped
    | Writer             // holds a write guard

  datatype State<T> = State(word: nat, value: T, phase: map<Agent, Phase>)

  datatype Op<T> =
    | TryRead | RollbackRead | DropRead
    | TryWrite | Store(v: T) | DropWrite
    | TryUpread | RollbackUpread | DropUpread
    | BeginUpgrade | TryUpgrade | FinishUpgrade

  function At(phase: map<Agent, Phase>, a: Agent): Phase {
    if a in phase then phase[a] else Idle
  }

  // The atomic operations of a 64-bit word, each giving the new word.

  function FetchAdd(w: nat, n: nat): nat { (w + n) % WORD }

  function FetchSub(w: nat, n: nat): nat
    requires n <= WORD
  {
    (w + WORD - n) % WORD
  }

  /** The phases from which the code can reach each atomic step. */
  predicate Enabled<T>(s: State<T>, a: Agent, op: Op<T>) {
    var p := At(s.phase, a);
    match op
    case TryRead => p.Idle?
    case RollbackRead => p.ReaderRollback?
    case DropRead => p.Reader?
    case TryWrite => p.Idle?
    case Store(_) => p.Writer?
    case DropWrite => p.Writer?
    case TryUpread => p.Idle?
    case RollbackUpread => p.UpreaderRollback?
    case DropUpread => p.Upreader?
    case BeginUpgrade => p.Upreader?
    case TryUpgrade => p.Upreader? || p.Upgrading?
    case FinishUpgrade => p.Upgraded?
  }

  function Move<T>(s: State<T>, word: nat, a: Agent, p: Phase): State<T> {
    s.(word := word, phase := s.phase[a := p])
  }

  /** One atomic step of agent `a`. */
  function Step<T>(s: State<T>, a: Agent, op: Op<T>): State<T> {
    var w := s.word;
    match op
    case TryRead =>
      Move(s, FetchAdd(w, READER), a, if And(w, READ_BLOCKERS) == 0 then Reader else ReaderRollback)
    case RollbackRead => Move(s, FetchSub(w, READER), a, Idle)
    case DropRead => Move(s, FetchSub(w, READER), a, Idle)
    case TryWrite =>
      if w == 0 then Move(s, WRITER, a, Writer) else s
    case Store(v) => s.(value := v)
    case DropWrite => Move(s, And(w, NOT_WRITER), a, Idle)
    case TryUpread =>
      var seen := And(w, WRITER_OR_UP);
      Move(s, Or(w, UPGRADEABLE_READER), a,
           if seen == 0 then Upreader else if seen == WRITER then UpreaderRollback else Idle)
    case RollbackUpread => Move(s, FetchSub(w, UPGRADEABLE_READER), a, Idle)
    case DropUpread => Move(s, FetchSub(w, UPGRADEABLE_READER), a, Idle)
    case BeginUpgrade => Move(s, Or(w, BEING_UPGRADED), a, Upgrading)
    case TryUpgrade =>
      if w == UP_BEING_UPGRADED
      then Move(s, WRITER_OR_UP, a, Upgraded) else s
    case FinishUpgrade => Move(s, FetchSub(w, UPGRADEABLE_READER), a, Writer)
  }

  // --- The meaning of the word ---

  function Holders(phase: map<Agent, Phase>, p: Phase): set<Agent> {
    set a | a in phase && phase[a] == p
  }

  function Num(phase: map<Agent, Phase>, p: Phase): nat { |Holders(phase, p)| }

  function WriterOwners(m: map<Agent, Phase>): nat { Num(m, Writer) + Num(m, Upgraded) }

  function UpOwners(m: map<Agent, Phase>): nat {
    Num(m, Upreader) + Num(m, UpreaderRollback) + Num(m, Upgrading) + Num(m, Upgraded)
  }

  function Counted(m: map<Agent, Phase>): nat { Num(m, Reader) + Num(m, ReaderRollback) }

  /** What an agent adds to the word while it is in phase `p`. */
  function Weight(p: Phase): nat {
    match p
    case Idle => 0
    case Reader | ReaderRollback => READER
    case Upreader | UpreaderRollback => UPGRADEABLE_READER
    case Upgrading => UPGRADEABLE_READER + BEING_UPGRADED
    case Upgraded => WRITER + UPGRADEABLE_READER
    case Writer => WRITER
  }

  /** Each part of the word says exactly who is there. */
  predicate WordTells(w: nat, m: map<Agent, Phase>) {
    && w / WRITER % 2 == WriterOwners(m)
    && w / UPGRADEABLE_READER % 2 == UpOwners(m)
    && w / BEING_UPGRADED % 2 == Num(m, Upgrading)
    && w % BEING_UPGRADED == Counted(m)
  }

  /** The number the phases add up to. */
  function Total(m: map<Agent, Phase>): nat {
    WriterOwners(m) * WRITER + UpOwners(m) * UPGRADEABLE_READER
    + Num(m, Upgrading) * BEING_UPGRADED + Counted(m)
  }

  /** At most one writer and one upreader, and nobody shares with a writer. */
  predicate Exclusion(m: map<Agent, Phase>) {
    && WriterOwners(m) <= 1
    && UpOwners(m) <= 1
    && Counted(m) < BEING_UPGRADED
    && Num(m, Reader) <= MAX_READER
    && (WriterOwners(m) == 1 ==> Num(m, Reader) == 0 && Num(m, Upreader) == 0 && Num(m, Upgrading) == 0)
  }

  predicate Inv<T>(s: State<T>) {
    s.word == Total(s.phase) && Exclusion(s.phase)
  }

  lemma InvMeansWordTells<T>(s: State<T>)
    requires Inv(s)
    ensures s.word < WORD && WordTells(s.word, s.phase)
    ensures s.word / MAX_READER % 2 == 0 <==> Counted(s.phase) < MAX_READER
    ensures WriterOwners(s.phase) == 1 ==> s.word % WRITER == s.word - WRITER
  {
    WordParts(s.word, WriterOwners(s.phase), UpOwners(s.phase), Num(s.phase, Upgrading), Counted(s.phase));
  }

  lemma WordParts(w: nat, writers: nat, ups: nat, upgrading: nat, readers: nat)
    requires writers <= 1 && ups <= 1 && upgrading <= 1 && readers < BEING_UPGRADED
    requires w == writers * WRITER + ups * UPGRADEABLE_READER + upgrading * BEING_UPGRADED + readers
    ensures w < WORD
    ensures w / WRITER % 2 == writers && w / UPGRADEABLE_READER % 2 == ups
    ensures w / BEING_UPGRADED % 2 == upgrading && w % BEING_UPGRADED == readers
    ensures w / MAX_READER % 2 == 0 <==> readers < MAX_READER
    ensures writers == 1 ==> w % WRITER == w - WRITER
  {
  }

  // --- Bit tests in arithmetic form ---

  lemma WriterBit(w: nat)
    ensures And(w, WRITER) == if w / WRITER % 2 == 1 then WRITER else 0
    ensures Or(w, WRITER) == if w / WRITER % 2 == 1 then w else w + WRITER
  {
    Pow2Values();
    BitIsDigit(w, 63);
    ShrLow(w, 63, WRITER);
    AndSingle(w, 63, WRITER);
    OrSingle(w, 63, WRITER);
  }

  lemma UpBit(w: nat)
    ensures And(w, UPGRADEABLE_READER) == if w / UPGRADEABLE_READER % 2 == 1 then UPGRADEABLE_READER else 0
    ensures Or(w, UPGRADEABLE_READER) == if w / UPGRADEABLE_READER % 2 == 1 then w else w + UPGRADEABLE_READER
  {
    Pow2Values();
    BitIsDigit(w, 62);
    ShrLow(w, 62, UPGRADEABLE_READER);
    AndSingle(w, 62, UPGRADEABLE_READER);
    OrSingle(w, 62, UPGRADEABLE_READER);
  }

  lemma UpgradedBit(w: nat)
    ensures And(w, BEING_UPGRADED) == if w / BEING_UPGRADED % 2 == 1 then BEING_UPGRADED else 0
    ensures Or(w, BEING_UPGRADED) == if w / BEING_UPGRADED % 2 == 1 then w else w + BEING_UPGRADED
  {
    Pow2Values();
    BitIsDigit(w, 61);
    ShrLow(w, 61, BEING_UPGRADED);
    AndSingle(w, 61, BEING_UPGRADED);
    OrSingle(w, 61, BEING_UPGRADED);
  }

  lemma MaxReaderBit(w: nat)
    ensures And(w, MAX_READER) == if w / MAX_READER % 2 == 1 then MAX_READER else 0
    ensures Or(w, MAX_READER) == if w / MAX_READER % 2 == 1 then w else w + MAX_READER
  {
    Pow2Values();
    BitIsDigit(w, 60);
    ShrLow(w, 60, MAX_READER);
    AndSingle(w, 60, MAX_READER);
    OrSingle(w, 60, MAX_READER);
  }

  lemma ReadTest(w: nat)
    ensures And(w, READ_BLOCKERS) == 0 <==>
            w / WRITER % 2 == 0 && w / MAX_READER % 2 == 0 && w / BEING_UPGRADED % 2 == 0
  {
    assert And(w, READ_BLOCKERS) == And(w, WRITER) + And(w, MAX_READER) + And(w, BEING_UPGRADED) by {
      Pow2Values();
      ThreeFlags(w, 63, 60, 61, WRITER, MAX_READER, BEING_UPGRADED);
    }
    WriterBit(w);
    MaxReaderBit(w);
    UpgradedBit(w);
  }

  lemma UpreadTest(w: nat)
    ensures And(w, WRITER_OR_UP)
         == (if w / WRITER % 2 == 1 then WRITER else 0)
            + (if w / UPGRADEABLE_READER % 2 == 1 then UPGRADEABLE_READER else 0)
  {
    assert And(w, WRITER_OR_UP) == And(w, WRITER) + And(w, UPGRADEABLE_READER) by {
      Pow2Values();
      TwoFlags(w, 63, 62, WRITER, UPGRADEABLE_READER);
    }
    WriterBit(w);
    UpBit(w);
  }

  lemma ClearWriter(w: nat)
    ensures And(w, NOT_WRITER) == w % WRITER
  {
    Pow2Values();
    AndLowMask(w, 63, WRITER);
    ShrLow(w, 63, WRITER);
  }

  // --- Every step keeps the invariant ---

  lemma NumUpdate(m: map<Agent, Phase>, a: Agent, p: Phase, q: Phase)
    requires q != Idle
    ensures Num(m[a := p], q)
         == Num(m, q) - (if At(m, a) == q then 1 else 0) + (if p == q then 1 else 0)
    ensures At(m, a) == q ==> Num(m, q) >= 1
  {
    var before, after := Holders(m, q), Holders(m[a := p], q);
    if p == q {
      assert after == before + {a};
    } else {
      assert after == before - {a};
    }
    assert a in before <==> At(m, a) == q;
  }

  function One(b: bool): nat { if b then 1 else 0 }

  /** The seven counts after agent `a` moves from its phase to `p`. */
  lemma CountsHold(m: map<Agent, Phase>, a: Agent, p: Phase)
    ensures var o, m' := At(m, a), m[a := p];
            && Num(m', Reader) == Num(m, Reader) - One(o.Reader?) + One(p.Reader?)
            && Num(m', ReaderRollback) == Num(m, ReaderRollback) - One(o.ReaderRollback?) + One(p.ReaderRollback?)
            && Num(m', Upreader) == Num(m, Upreader) - One(o.Upreader?) + One(p.Upreader?)
            && Num(m', UpreaderRollback)
               == Num(m, UpreaderRollback) - One(o.UpreaderRollback?) + One(p.UpreaderRollback?)
            && Num(m', Upgrading) == Num(m, Upgrading) - One(o.Upgrading?) + One(p.Upgrading?)
            && Num(m', Upgraded) == Num(m, Upgraded) - One(o.Upgraded?) + One(p.Upgraded?)
            && Num(m', Writer) == Num(m, Writer) - One(o.Writer?) + One(p.Writer?)
    ensures At(m, a) != Idle ==> Num(m, At(m, a)) >= 1
  {
    NumUpdate(m, a, p, Reader);
    NumUpdate(m, a, p, ReaderRollback);
    NumUpdate(m, a, p, Upreader);
    NumUpdate(m, a, p, UpreaderRollback);
    NumUpdate(m, a, p, Upgrading);
    NumUpdate(m, a, p, Upgraded);
    NumUpdate(m, a, p, Writer);
  }

  // --- When each attempt is granted, said in terms of who is there ---

  lemma TryReadGrant<T>(s: State<T>, a: Agent)
    requires Inv(s)
    ensures Step(s, a, TryRead)
         == Move(s, s.word + 1, a,
                 if WriterOwners(s.phase) == 0 && Num(s.phase, Upgrading) == 0 && Counted(s.phase) < MAX_READER
                 then Reader else ReaderRollback)
  {
    InvMeansWordTells(s);
    ReadTest(s.word);
  }

  lemma TryWriteGrant<T>(s: State<T>, a: Agent)
    requires Inv(s)
    ensures Step(s, a, TryWrite)
         == if WriterOwners(s.phase) == 0 && UpOwners(s.phase) == 0 && Counted(s.phase) == 0
            then Move(s, WRITER, a, Writer) else s
  {
    InvMeansWordTells(s);
  }

  lemma TryUpreadGrant<T>(s: State<T>, a: Agent)
    requires Inv(s)
    ensures Step(s, a, TryUpread)
         == if UpOwners(s.phase) == 1 then Move(s, s.word, a, Idle)
            else Move(s, s.word + UPGRADEABLE_READER, a,
                      if WriterOwners(s.phase) == 0 then Upreader else UpreaderRollback)
  {
    InvMeansWordTells(s);
    UpreadTest(s.word);
    UpBit(s.word);
  }

  lemma TryUpgradeGrant<T>(s: State<T>, a: Agent)
    requires Inv(s)
    ensures Step(s, a, TryUpgrade)
         == if WriterOwners(s.phase) == 0 && Num(s.phase, Upgrading) == 1 && Counted(s.phase) == 0
            then Move(s, WRITER + UPGRADEABLE_READER, a, Upgraded) else s
  {
    InvMeansWordTells(s);
  }

  lemma HolderCounts(m: map<Agent, Phase>, a: Agent)
    requires At(m, a) != Idle
    ensures Num(m, At(m, a)) >= 1
  {
    assert a in Holders(m, At(m, a));
  }

  lemma DropWriteWord<T>(s: State<T>, a: Agent)
    requires Inv(s) && At(s.phase, a) == Writer
    ensures s.word >= WRITER && Step(s, a, DropWrite) == Move(s, s.word - WRITER, a, Idle)
  {
    var w := s.word;
    assert And(w, NOT_WRITER) == w - WRITER by {
      InvMeansWordTells(s);
      ClearWriter(w);
      HolderCounts(s.phase, a);
    }
  }

  lemma BeginUpgradeWord<T>(s: State<T>, a: Agent)
    requires Inv(s) && At(s.phase, a) == Upreader
    ensures Step(s, a, BeginUpgrade) == Move(s, s.word + BEING_UPGRADED, a, Upgrading)
  {
    InvMeansWordTells(s);
    UpgradedBit(s.word);
    CountsHold(s.phase, a, Upgrading);
  }

  /** Moving one agent changes the total by the difference of the two weights. */
  lemma MoveTotal(m: map<Agent, Phase>, a: Agent, p: Phase)
    ensures Total(m[a := p]) == Total(m) - Weight(At(m, a)) + Weight(p)
    ensures Weight(At(m, a)) <= Total(m)
  {
    CountsHold(m, a, p);
  }

  /** A step of `a` moves only `a`, and changes the word by the difference of weights. */
  ghost predicate MovesByWeight<T>(s: State<T>, a: Agent, s': State<T>) {
    && (s'.phase == s.phase || s'.phase == s.phase[a := At(s'.phase, a)])
    && s'.word == s.word - Weight(At(s.phase, a)) + Weight(At(s'.phase, a))
  }

  lemma FetchSubExact(w: nat, n: nat)
    requires n <= w < WORD
    ensures FetchSub(w, n) == w - n
  {
  }

  lemma AttemptMovesByWeight<T>(s: State<T>, a: Agent, op: Op<T>)
    requires Inv(s) && Enabled(s, a, op)
    requires op.TryRead? || op.TryWrite? || op.TryUpread? || op.TryUpgrade? || op.BeginUpgrade?
    ensures MovesByWeight(s, a, Step(s, a, op))
  {
    match op {
      case TryRead => TryReadGrant(s, a);
      case TryWrite => TryWriteGrant(s, a);
      case TryUpread => TryUpreadGrant(s, a);
      case BeginUpgrade => BeginUpgradeWord(s, a);
      case TryUpgrade => TryUpgradeGrant(s, a); DirectTryUpgradeFails(s, a);
    }
  }

  lemma ReleaseMovesByWeight<T>(s: State<T>, a: Agent, op: Op<T>)
    requires Inv(s) && Enabled(s, a, op)
    requires op.RollbackRead? || op.DropRead? || op.RollbackUpread? || op.DropUpread? || op.FinishUpgrade?
          || op.DropWrite? || op.Store?
    ensures MovesByWeight(s, a, Step(s, a, op))
  {
    assert Weight(At(s.phase, a)) <= s.word < WORD by {
      InvMeansWordTells(s);
      MoveTotal(s.phase, a, Idle);
    }
    match op {
      case RollbackRead | DropRead => FetchSubExact(s.word, READER);
      case RollbackUpread | DropUpread | FinishUpgrade => FetchSubExact(s.word, UPGRADEABLE_READER);
      case DropWrite => DropWriteWord(s, a);
      case Store(_) =>
    }
  }

  /** `try_upgrade` on a guard that is not inside `upgrade` never succeeds. */
  lemma DirectTryUpgradeFails<T>(s: State<T>, a: Agent)
    requires Inv(s)
    ensures At(s.phase, a) == Upreader ==> Step(s, a, TryUpgrade) == s
  {
    TryUpgradeGrant(s, a);
    CountsHold(s.phase, a, Idle);
  }

  /** There is room in the count for the step. */
  predicate Roomy<T>(s: State<T>, op: Op<T>) { op.TryRead? ==> Counted(s.phase) + 1 < BEING_UPGRADED }

  lemma StepKeepsExclusion<T>(s: State<T>, a: Agent, op: Op<T>)
    requires Inv(s) && Enabled(s, a, op)
    requires MovesByWeight(s, a, Step(s, a, op))
    ensures Exclusion(Step(s, a, op).phase) <==> Roomy(s, op)
  {
    CountsHold(s.phase, a, At(Step(s, a, op).phase, a));
    match op {
      case TryRead => TryReadGrant(s, a);
      case TryWrite => TryWriteGrant(s, a);
      case TryUpread => TryUpreadGrant(s, a);
      case TryUpgrade => TryUpgradeGrant(s, a);
      case _ =>
    }
  }

  /** Every atomic step of every agent keeps the invariant, but for one: the reader that would fill the count. */
  lemma StepKeepsInv<T>(s: State<T>, a: Agent, op: Op<T>)
    requires Inv(s) && Enabled(s, a, op)
    ensures Inv(Step(s, a, op)) <==> Roomy(s, op)
  {
    var s' := Step(s, a, op);
    if op.TryRead? || op.TryWrite? || op.TryUpread? || op.TryUpgrade? || op.BeginUpgrade? {
      AttemptMovesByWeight(s, a, op);
    } else {
      ReleaseMovesByWeight(s, a, op);
    }
    StepKeepsExclusion(s, a, op);
    MoveTotal(s.phase, a, At(s'.phase, a));
  }

  /** A reader that adds itself leaves a word that still tells who is there if and only if the count stays below bit 61.
      */
  lemma CountMayCarry<T>(s: State<T>, a: Agent)
    requires Inv(s) && Enabled(s, a, TryRead)
    ensures var s' := Step(s, a, TryRead);
            WordTells(s'.word, s'.phase) <==> Counted(s.phase) + 1 < BEING_UPGRADED
  {
    TryReadGrant(s, a);
    var s' := Step(s, a, TryRead);
    CountsHold(s.phase, a, At(s'.phase, a));
    if Counted(s.phase) + 1 < BEING_UPGRADED {
      WordParts(s'.word, WriterOwners(s'.phase), UpOwners(s'.phase), Num(s'.phase, Upgrading), Counted(s'.phase));
    } else {
      assert s'.word % BEING_UPGRADED < BEING_UPGRADED;
    }
  }

  ghost function FirstAgents(n: nat): (r: set<Agent>)
    ensures |r| == n && forall a: Agent :: a in r <==> a < n
  {
    if n == 0 then {} else FirstAgents(n - 1) + {n - 1}
  }

  /** The fullest count: `held` read guards, and rollbacks that are yet to come. */
  ghost function Crowd(held: nat, counted: nat): map<Agent, Phase> {
    map a: Agent | a in FirstAgents(counted) :: if a < held then Reader else ReaderRollback
  }

  lemma CrowdCounts(held: nat, counted: nat, p: Phase)
    requires held <= counted
    ensures Num(Crowd(held, counted), p) == if p.Reader? then held else if p.ReaderRollback? then counted - held else 0
  {
    var m := Crowd(held, counted);
    if p.Reader? {
      assert Holders(m, p) == FirstAgents(held);
    } else if p.ReaderRollback? {
      assert Holders(m, p) == FirstAgents(counted) - FirstAgents(held);
      assert FirstAgents(held) <= FirstAgents(counted);
    } else {
      assert Holders(m, p) == {};
    }
  }

  /** A state with a full count: one more reader sets the being-upgraded bit while nobody upgrades. */
  lemma FullCountCarries<T>(v: T, full: nat, a: Agent)
    requires full == BEING_UPGRADED - 1 && a >= full
    ensures var s := State(full, v, Crowd(MAX_READER, full));
            var s' := Step(s, a, TryRead);
            && Inv(s) && Enabled(s, a, TryRead)
            && s'.word == BEING_UPGRADED && Num(s'.phase, Upgrading) == 0 && !WordTells(s'.word, s'.phase)
  {
    var m := Crowd(MAX_READER, full);
    var s := State(full, v, m);
    forall p: Phase
      ensures Num(m, p) == if p.Reader? then MAX_READER else if p.ReaderRollback? then full - MAX_READER else 0
    {
      CrowdCounts(MAX_READER, full, p);
    }
    TryReadGrant(s, a);
    CountsHold(m, a, ReaderRollback);
    CountMayCarry(s, a);
  }

  /** Where the steps that need no luck lead. Giving up a guard, or taking back a failed attempt, leaves the agent with
      nothing and takes exactly its share out of the word; `upgrade` announces itself and ends with the write guard.
      Only a store changes the value, into the one stored, and no step moves another agent. */
  lemma StepLeadsTo<T>(s: State<T>, a: Agent, op: Op<T>)
    requires Inv(s) && Enabled(s, a, op)
    ensures var s', gone := Step(s, a, op), Weight(At(s.phase, a));
            && (forall b | b != a :: At(s'.phase, b) == At(s.phase, b))
            && (op.RollbackRead? || op.DropRead? || op.DropWrite? || op.RollbackUpread? || op.DropUpread? ==>
                  At(s'.phase, a) == Idle && s'.word == s.word - gone)
            && (op.BeginUpgrade? ==> At(s'.phase, a) == Upgrading && s'.word == s.word + BEING_UPGRADED)
            && (op.FinishUpgrade? ==> At(s'.phase, a) == Writer && s'.word == s.word - UPGRADEABLE_READER)
            && s'.value == (if op.Store? then op.v else s.value)
            && (op.Store? ==> s'.word == s.word && s'.phase == s.phase)
  {
    if op.BeginUpgrade? {
      AttemptMovesByWeight(s, a, op);
    } else if !op.TryRead? && !op.TryWrite? && !op.TryUpread? && !op.TryUpgrade? {
      ReleaseMovesByWeight(s, a, op);
    }
  }

  // --- Whole runs ---

  datatype Event<T> = Event(agent: Agent, op: Op<T>)

  /** A run from the unlocked word: any agents, in any order. */
  ghost predicate Run<T>(states: seq<State<T>>, events: seq<Event<T>>) {
    && |states| == |events| + 1
    && states[0].word == 0 && states[0].phase == map[]
    && (forall i | 0 <= i < |events| ::
          && Enabled(states[i], events[i].agent, events[i].op)
          && states[i + 1] == Step(states[i], events[i].agent, events[i].op))
  }

  /** In no state of the run is the count full. */
  ghost predicate CountFits<T>(states: seq<State<T>>) {
    forall i | 0 <= i < |states| :: Counted(states[i].phase) < BEING_UPGRADED
  }

  lemma {:induction false} RunKeepsInv<T>(states: seq<State<T>>, events: seq<Event<T>>, i: nat)
    requires Run(states, events) && CountFits(states) && i < |states|
    ensures Inv(states[i])
  {
    if i == 0 {
      forall p: Phase ensures Num(map[], p) == 0 { assert Holders(map[], p) == {}; }
    } else {
      RunKeepsInv(states, events, i - 1);
      var s, e := states[i - 1], events[i - 1];
      assert states[i - 1 + 1] == Step(s, e.agent, e.op);
      if e.op.TryRead? {
        TryReadGrant(s, e.agent);
        CountsHold(s.phase, e.agent, At(states[i].phase, e.agent));
      }
      StepKeepsInv(s, e.agent, e.op);
    }
  }

  /** The invariant holds throughout a run exactly when the count always fits. */
  lemma RunKeepsInvIff<T>(states: seq<State<T>>, events: seq<Event<T>>)
    requires Run(states, events)
    ensures (forall i | 0 <= i < |states| :: Inv(states[i])) <==> CountFits(states)
  {
    if CountFits(states) {
      forall i | 0 <= i < |states| ensures Inv(states[i]) { RunKeepsInv(states, events, i); }
    }
  }

  /** It always does when there are fewer than 2^61 agents, whatever they do. */
  lemma FewAgentsFit<T>(states: seq<State<T>>, events: seq<Event<T>>, agents: nat)
    requires Run(states, events) && agents < BEING_UPGRADED
    requires forall i | 0 <= i < |events| :: events[i].agent < agents
    ensures CountFits(states)
  {
    forall i | 0 <= i < |states| ensures Counted(states[i].phase) < BEING_UPGRADED {
      AgentsOnly(states, events, agents, i);
      var m := states[i].phase;
      var readers, rollbacks := Holders(m, Reader), Holders(m, ReaderRollback);
      assert readers !! rollbacks;
      assert readers + rollbacks <= FirstAgents(agents);
      FewerAgents(readers + rollbacks, FirstAgents(agents));
    }
  }

  lemma FewerAgents(a: set<Agent>, b: set<Agent>)
    requires a <= b
    ensures |a| <= |b|
  {
    assert b == a + (b - a);
  }

  lemma {:induction false} AgentsOnly<T>(states: seq<State<T>>, events: seq<Event<T>>, agents: nat, i: nat)
    requires Run(states, events) && i < |states| && forall k | 0 <= k < |events| :: events[k].agent < agents
    ensures forall a | a in states[i].phase :: a < agents
  {
    if i > 0 {
      AgentsOnly(states, events, agents, i - 1);
      var s, e := states[i - 1], events[i - 1];
      assert states[i - 1 + 1] == Step(s, e.agent, e.op);
    }
  }

  predicate HoldsGuard(p: Phase) {
    p.Reader? || p.Upreader? || p.Upgrading? || p.Upgraded? || p.Writer?
  }

  predicate Writes(p: Phase) { p.Writer? || p.Upgraded? }

  /** A write guard excludes every other guard, and there is one upgradeable guard at most. */
  lemma InvExcludes<T>(s: State<T>, a: Agent, b: Agent)
    requires Inv(s) && a != b
    ensures Writes(At(s.phase, a)) ==> !HoldsGuard(At(s.phase, b))
    ensures HoldsGuard(At(s.phase, a)) && HoldsGuard(At(s.phase, b)) ==>
              At(s.phase, a).Reader? || At(s.phase, b).Reader?
  {
    var p, q := At(s.phase, a), At(s.phase, b);
    if HoldsGuard(p) && HoldsGuard(q) {
      var rest := s.phase[a := Idle];
      CountsHold(s.phase, a, Idle);
      HolderCounts(rest, b);
    }
  }

  lemma ReachableExcludes<T>(states: seq<State<T>>, events: seq<Event<T>>, i: nat, a: Agent, b: Agent)
    requires Run(states, events) && CountFits(states) && i < |states| && a != b
    ensures Writes(At(states[i].phase, a)) ==> !HoldsGuard(At(states[i].phase, b))
    ensures HoldsGuard(At(states[i].phase, a)) && HoldsGuard(At(states[i].phase, b)) ==>
              At(states[i].phase, a).Reader? || At(states[i].phase, b).Reader?
    ensures Num(states[i].phase, Reader) <= MAX_READER
  {
    RunKeepsInv(states, events, i);
    InvExcludes(states[i], a, b);
  }

  lemma OnlyWritersStore<T>(s: State<T>, e: Agent, op: Op<T>, a: Agent)
    requires Inv(s) && Enabled(s, e, op)
    requires HoldsGuard(At(s.phase, a)) && !At(s.phase, a).Writer?
    ensures Step(s, e, op).value == s.value
  {
    if op.Store? { InvExcludes(s, e, a); }
  }

  /** From the moment an agent holds a read or upgradeable guard until it gives it up or
      `upgrade` hands out the write guard, nobody else can write: the value stands still. */
  lemma {:induction false} GuardedValueStands<T>(states: seq<State<T>>, events: seq<Event<T>>, a: Agent, i: nat, j: nat)
    requires Run(states, events) && CountFits(states) && i <= j < |states|
    requires forall k | i <= k <= j :: HoldsGuard(At(states[k].phase, a)) && !At(states[k].phase, a).Writer?
    ensures states[j].value == states[i].value
    ensures forall b | b != a :: !Writes(At(states[j].phase, b))
    ensures j < |events| ==> states[j + 1].value == states[i].value
    decreases j
  {
    RunKeepsInv(states, events, j);
    if i < j { GuardedValueStands(states, events, a, i, j - 1); }
    forall b | b != a ensures !Writes(At(states[j].phase, b)) { InvExcludes(states[j], b, a); }
    if j < |events| {
      OnlyWritersStore(states[j], events[j].agent, events[j].op, a);
    }
  }

  /** In every run the value is the one stored last, and the first one as long as nobody has stored. */
  lemma {:induction false} ValueIsStoredLast<T>(states: seq<State<T>>, events: seq<Event<T>>, k: nat, i: nat)
    requires Run(states, events) && k <= i < |states| && forall j | k <= j < i :: !events[j].op.Store?
    ensures k > 0 && events[k - 1].op.Store? ==> states[i].value == events[k - 1].op.v
    ensures k == 0 ==> states[i].value == states[0].value
    decreases i
  {
    if k < i {
      ValueIsStoredLast(states, events, k, i - 1);
      assert states[i - 1 + 1] == Step(states[i - 1], events[i - 1].agent, events[i - 1].op);
    } else if k > 0 {
      assert states[k - 1 + 1] == Step(states[k - 1], events[k - 1].agent, events[k - 1].op);
    }
  }

  /** In every run the being-upgraded bit is set exactly while somebody is upgrading, and
      `try_upgrade` outside `upgrade` changes nothing. */
  lemma BeingUpgradedHasOwner<T>(states: seq<State<T>>, events: seq<Event<T>>, i: nat, a: Agent)
    requires Run(states, events) && CountFits(states) && i < |states|
    ensures states[i].word / BEING_UPGRADED % 2 == 1 <==> exists b :: At(states[i].phase, b) == Upgrading
    ensures At(states[i].phase, a) == Upreader ==> Step(states[i], a, TryUpgrade) == states[i]
  {
    var s := states[i];
    RunKeepsInv(states, events, i);
    InvMeansWordTells(s);
    DirectTryUpgradeFails(s, a);
    if Num(s.phase, Upgrading) > 0 {
      var b :| b in Holders(s.phase, Upgrading);
      assert At(s.phase, b) == Upgrading;
    }
    forall b | At(s.phase, b) == Upgrading ensures Num(s.phase, Upgrading) >= 1 { HolderCounts(s.phase, b); }
  }

  lemma TryUpgradeOutcome<T>(s: State<T>, a: Agent)
    requires Inv(s) && Enabled(s, a, TryUpgrade)
    ensures Inv(Step(s, a, TryUpgrade))
    ensures s.word == UP_BEING_UPGRADED
            <==> At(s.phase, a).Upgrading? && Counted(s.phase) == 0
  {
    TryUpgradeGrant(s, a);
    DirectTryUpgradeFails(s, a);
    CountsHold(s.phase, a, Upgraded);
    StepKeepsInv(s, a, TryUpgrade);
    InvMeansWordTells(s);
  }

  // --- The lock as an object, one method per atomic step ---

  class RwLock<T> {
    var lock: nat
    var value: T
    ghost var phase: map<Agent, Phase>

    ghost function Snapshot(): State<T>
      reads this
    {
      State(lock, value, phase)
    }

    ghost predicate Valid()
      reads this
    {
      Inv(Snapshot())
    }

    constructor (v: T)
      ensures Valid() && value == v && lock == 0 && phase == map[]
    {
      lock, value, phase := 0, v, map[];
      new;
      forall p: Phase ensures Num(map[], p) == 0 { assert Holders(map[], p) == {}; }
    }

    /** The `fetch_add` of `try_read`; when it fails, `SubReader` must follow. */
    method TryRead(ghost a: Agent) returns (granted: bool)
      requires Valid() && At(phase, a).Idle? && Counted(phase) + 1 < BEING_UPGRADED
      modifies this
      ensures Valid() && Snapshot() == old(Step(Snapshot(), a, Op.TryRead))
      ensures granted <==> old(WriterOwners(phase) == 0 && Num(phase, Upgrading) == 0 && Counted(phase) < MAX_READER)
    {
      ghost var s := Snapshot();
      TryReadGrant(s, a);
      CountsHold(s.phase, a, At(Step(s, a, Op.TryRead).phase, a));
      StepKeepsInv(s, a, Op.TryRead);
      var seen := lock;
      lock := FetchAdd(lock, READER);
      granted := And(seen, READ_BLOCKERS) == 0;
      phase := phase[a := if granted then Reader else ReaderRollback];
    }

    /** The `fetch_sub` of a read guard's drop and of a failed `try_read`. */
    method SubReader(ghost a: Agent)
      requires Valid() && (At(phase, a).Reader? || At(phase, a).ReaderRollback?)
      modifies this
      ensures Valid() && Snapshot() == old(Step(Snapshot(), a, DropRead)) && lock == old(lock) - 1
      ensures phase == old(phase)[a := Idle] && value == old(value)
    {
      ghost var s := Snapshot();
      CountsHold(s.phase, a, Idle);
      ghost var op: Op<T> := if At(phase, a).Reader? then DropRead else RollbackRead;
      StepKeepsInv(s, a, op);
      ReleaseMovesByWeight(s, a, op);
      lock := FetchSub(lock, READER);
      phase := phase[a := Idle];
    }

    method TryWrite(ghost a: Agent) returns (granted: bool)
      requires Valid() && At(phase, a).Idle?
      modifies this
      ensures Valid() && Snapshot() == old(Step(Snapshot(), a, Op.TryWrite))
      ensures granted <==> old(WriterOwners(phase) == 0 && UpOwners(phase) == 0 && Counted(phase) == 0)
    {
      ghost var s := Snapshot();
      TryWriteGrant(s, a);
      CountsHold(s.phase, a, Writer);
      StepKeepsInv(s, a, Op.TryWrite);
      granted := lock == 0;
      if granted {
        lock := WRITER;
        phase := phase[a := Writer];
      }
    }

    method Write(ghost a: Agent, v: T)
      requires Valid() && At(phase, a).Writer?
      modifies this`value
      ensures Valid() && value == v && Snapshot() == old(Step(Snapshot(), a, Store(v)))
      ensures forall b | b != a :: !HoldsGuard(At(phase, b))
    {
      value := v;
      forall b | b != a ensures !HoldsGuard(At(phase, b)) { InvExcludes(Snapshot(), a, b); }
    }

    method DropWriter(ghost a: Agent)
      requires Valid() && At(phase, a).Writer?
      modifies this
      ensures Valid() && Snapshot() == old(Step(Snapshot(), a, DropWrite)) && lock == old(lock) - WRITER
      ensures phase == old(phase)[a := Idle] && value == old(value)
    {
      ghost var s := Snapshot();
      CountsHold(s.phase, a, Idle);
      StepKeepsInv(s, a, DropWrite);
      DropWriteWord(s, a);
      lock := And(lock, NOT_WRITER);
      phase := phase[a := Idle];
    }

    /** The `fetch_or` of `try_upread`; `mustTakeBack` says that a rollback must follow. */
    method TryUpread(ghost a: Agent) returns (granted: bool, mustTakeBack: bool)
      requires Valid() && At(phase, a).Idle?
      modifies this
      ensures Valid() && Snapshot() == old(Step(Snapshot(), a, Op.TryUpread))
      ensures granted <==> old(UpOwners(phase) == 0 && WriterOwners(phase) == 0)
      ensures mustTakeBack <==> old(UpOwners(phase) == 0 && WriterOwners(phase) == 1)
    {
      ghost var s := Snapshot();
      TryUpreadGrant(s, a);
      CountsHold(s.phase, a, At(Step(s, a, Op.TryUpread).phase, a));
      StepKeepsInv(s, a, Op.TryUpread);
      var seen := And(lock, WRITER_OR_UP);
      lock := Or(lock, UPGRADEABLE_READER);
      granted, mustTakeBack := seen == 0, seen == WRITER;
      phase := phase[a := if granted then Upreader else if mustTakeBack then UpreaderRollback else Idle];
    }

    /** The `fetch_sub` of an upgradeable guard's drop, of a failed `try_upread`, and of the
        guard that `try_upgrade` has just turned into a write guard. */
    method SubUpreader(ghost a: Agent)
      requires Valid()
      requires At(phase, a).Upreader? || At(phase, a).UpreaderRollback? || At(phase, a).Upgraded?
      modifies this
      ensures Valid() && lock == old(lock) - UPGRADEABLE_READER && value == old(value)
      ensures phase == old(phase)[a := if old(At(phase, a)).Upgraded? then Writer else Idle]
      ensures old(At(phase, a)).Upreader? ==> Snapshot() == old(Step(Snapshot(), a, DropUpread))
      ensures old(At(phase, a)).UpreaderRollback? ==> Snapshot() == old(Step(Snapshot(), a, RollbackUpread))
      ensures old(At(phase, a)).Upgraded? ==> Snapshot() == old(Step(Snapshot(), a, FinishUpgrade))
    {
      ghost var s := Snapshot();
      ghost var p := At(phase, a);
      ghost var op: Op<T> := if p.Upreader? then DropUpread else if p.Upgraded? then FinishUpgrade else RollbackUpread;
      CountsHold(s.phase, a, if p.Upgraded? then Writer else Idle);
      StepKeepsInv(s, a, op);
      ReleaseMovesByWeight(s, a, op);
      lock := FetchSub(lock, UPGRADEABLE_READER);
      phase := phase[a := if p.Upgraded? then Writer else Idle];
    }

    method BeginUpgrade(ghost a: Agent)
      requires Valid() && At(phase, a).Upreader?
      modifies this
      ensures Valid() && Snapshot() == old(Step(Snapshot(), a, Op.BeginUpgrade))
      ensures lock == old(lock) + BEING_UPGRADED
    {
      ghost var s := Snapshot();
      CountsHold(s.phase, a, Upgrading);
      StepKeepsInv(s, a, Op.BeginUpgrade);
      BeginUpgradeWord(s, a);
      lock := Or(lock, BEING_UPGRADED);
      phase := phase[a := Upgrading];
    }

    method TryUpgrade(ghost a: Agent) returns (ok: bool)
      requires Valid() && (At(phase, a).Upreader? || At(phase, a).Upgrading?)
      modifies this
      ensures Valid() && Snapshot() == old(Step(Snapshot(), a, Op.TryUpgrade))
      ensures ok <==> old(At(phase, a).Upgrading? && Counted(phase) == 0)
    {
      TryUpgradeOutcome(Snapshot(), a);
      ok := lock == UP_BEING_UPGRADED;
      if ok {
        lock := WRITER_OR_UP;
        phase := phase[a := Upgraded];
      }
    }
  }
}
