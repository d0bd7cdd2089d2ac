/** What the log and the buffer cache are to the code above them: one map from block numbers to contents, in
    which processes hold blocks, change them inside operations and let them go, while commits copy the map to
    the disk block by block, holding blocks themselves. Every step is one that the locks of log.c and bio.c
    make atomic. */
module StorageSpec {
  import opened Common
  import opened Blocks
  import opened LogSpec
  import opened Lru
  import P = LogProto

  /** Begin, End: begin_op and end_op. Get, Lock: the two halves of bread. Put: a change to a block that the
      process holds, and its log_write. Unlock, Unref: the two halves of brelse. Commit: the next step of the
      commit. */
  datatype Op =
    | Begin(p: nat)
    | Get(p: nat, b: nat)
    | Lock(p: nat, b: nat)
    | Put(p: nat, b: nat, data: Block)
    | Unlock(p: nat, b: nat)
    | Unref(p: nat, b: nat)
    | End(p: nat)
    | Commit

  /** What comes of it; Refused is for what no caller does. */
  datatype Out = Done | Data(data: Block) | Waits | Panic | Refused

  /** The steps of a commit: the halves of bread, the two kinds of device write, bunpin, the halves of brelse. */
  datatype Act =
    | Take(b: nat)
    | Seize(b: nat)
    | Copy(src: nat, dst: nat)
    | PutHead(b: nat)
    | Unpin(b: nat)
    | Free(b: nat)
    | Leave(b: nat)

  /** log: who is in an operation, and what is logged. cur: what a reader gets. saves: the versions that a
      crash has left or would have left, the last one in force. users: who has a reference to each block, and
      holder: who has it locked; the commit counts as one more process. turn, pos: how far it is. */
  datatype State = State(log: P.State, cur: Disk, saves: seq<Disk>, users: seq<set<nat>>, holder: seq<Option<nat>>,
                         turn: nat, pos: nat, stuck: bool)

  /** The commit's number among the users. */
  function Committer(s: State): (c: nat) {
    |s.log.procs|
  }

  // ---- what a commit does ----

  /** write_log's turn for the home block h and its place l in the log. */
  function LogActs(l: nat, h: nat): (acts: seq<Act>) {
    [Take(l), Seize(l), Take(h), Seize(h), Copy(h, l), Free(h), Leave(h), Free(l), Leave(l)]
  }

  /** write_head. */
  function HeadActs(b: nat): (acts: seq<Act>) {
    [Take(b), Seize(b), PutHead(b), Free(b), Leave(b)]
  }

  /** install_trans's turn. */
  function HomeActs(l: nat, h: nat): (acts: seq<Act>) {
    [Take(l), Seize(l), Take(h), Seize(h), Copy(l, h), Unpin(h), Free(l), Leave(l), Free(h), Leave(h)]
  }

  /** What a commit has to do for n blocks: the log blocks, the header, the home blocks, the header again. */
  function Turns(n: nat): (k: nat) {
    if n == 0 then 0 else 2 * n + 2
  }

  function TurnActs(start: nat, bs: seq<nat>, turn: nat): (acts: seq<Act>)
    requires turn < Turns(|bs|)
  {
    var n := |bs|;
    if turn < n then LogActs(start + 1 + turn, bs[turn])
    else if turn == n || turn == 2 * n + 1 then HeadActs(start)
    else HomeActs(start + turn - n, bs[turn - n - 1])
  }

  /** The turn that the commit is in. Once the log is empty what is left is the rest of the last write_head. */
  function ActsAt(phase: P.Phase, bs: seq<nat>, turn: nat, start: nat): (acts: seq<Act>) {
    if phase.Writing? && turn < Turns(|bs|) then TurnActs(start, bs, turn) else if phase.Written? then HeadActs(start) else []
  }

  function Acts(s: State, start: nat): (acts: seq<Act>) {
    ActsAt(s.log.phase, s.log.blocks, s.turn, start)
  }

  /** Device writes that the running commit has issued. */
  function Issued(s: State): (k: nat) {
    var n := |s.log.blocks|;
    var before := if s.turn == n || s.turn == 2 * n + 1 then 2 else 4;
    if !s.log.phase.Writing? then 0 else s.turn + if s.pos > before then 1 else 0
  }

  /** Logged blocks that have gone home and lost their pin. */
  function Installed(s: State): (m: nat)
    ensures m <= |s.log.blocks|
  {
    var n := |s.log.blocks|;
    if !s.log.phase.Writing? || s.turn <= n then 0
    else if s.turn > 2 * n then n
    else s.turn - n - 1 + if s.pos > 5 then 1 else 0
  }

  /** The log's own reference to a block. */
  predicate Pinned(s: State, b: nat) {
    b in s.log.blocks[Installed(s)..]
  }

  /** Blocks whose buffers cannot be recycled. */
  function InUse(s: State): (bs: set<nat>) {
    set b | 0 <= b < |s.users| && (s.users[b] != {} || Pinned(s, b))
  }

  /** What the commit refers to, and what it has locked. */
  function Refs(s: State): (bs: set<nat>) {
    set b | 0 <= b < |s.users| && Committer(s) in s.users[b]
  }

  function Locks(s: State): (bs: set<nat>) {
    set b | 0 <= b < |s.holder| && s.holder[b] == Some(Committer(s))
  }

  /** A step that whoever has these references and locks may take, and what it then has. */
  predicate Allowed(act: Act, refs: set<nat>, locks: set<nat>) {
    match act
    case Take(b) => b !in refs
    case Seize(b) => b in refs && b !in locks
    case Copy(src, dst) => src != dst && src in locks && dst in locks
    case PutHead(b) => b in locks
    case Unpin(b) => b in locks
    case Free(b) => b in locks
    case Leave(b) => b in refs && b !in locks
  }

  function RefsAfter(act: Act, refs: set<nat>): (bs: set<nat>) {
    if act.Take? then refs + {act.b} else if act.Leave? then refs - {act.b} else refs
  }

  function LocksAfter(act: Act, locks: set<nat>): (bs: set<nat>) {
    if act.Seize? then locks + {act.b} else if act.Free? then locks - {act.b} else locks
  }

  /** From these references and locks the rest of a turn can be done, and ends without any. */
  predicate Orderly(acts: seq<Act>, refs: set<nat>, locks: set<nat>) {
    if acts == [] then refs == {} && locks == {}
    else Allowed(acts[0], refs, locks) && Orderly(acts[1..], RefsAfter(acts[0], refs), LocksAfter(acts[0], locks))
  }

  lemma OrderlyFrom(acts: seq<Act>, i: nat, refs: set<nat>, locks: set<nat>)
    requires i < |acts|
    ensures Orderly(acts[i..], refs, locks) <==>
      Allowed(acts[i], refs, locks) && Orderly(acts[i + 1..], RefsAfter(acts[i], refs), LocksAfter(acts[i], locks))
  {
    assert acts[i..][1..] == acts[i + 1..] && acts[i..][0] == acts[i];
  }

  /** One step before a rest that can be done. */
  lemma OneBefore(acts: seq<Act>, i: nat, refs: set<nat>, locks: set<nat>, refs': set<nat>, locks': set<nat>)
    requires i < |acts| && Allowed(acts[i], refs, locks) && Orderly(acts[i + 1..], refs', locks')
    requires RefsAfter(acts[i], refs) == refs' && LocksAfter(acts[i], locks) == locks'
    ensures Orderly(acts[i..], refs, locks)
  {
    OrderlyFrom(acts, i, refs, locks);
  }

  lemma TakeBoth(acts: seq<Act>, l: nat, h: nat)
    requires l != h && |acts| >= 4 && acts[0] == Take(l) && acts[1] == Seize(l) && acts[2] == Take(h) && acts[3] == Seize(h)
    requires Orderly(acts[4..], {l, h}, {l, h})
    ensures Orderly(acts, {}, {})
  {
    hide Orderly;
    OneBefore(acts, 3, {l, h}, {l}, {l, h}, {l, h});
    OneBefore(acts, 2, {l}, {l}, {l, h}, {l});
    OneBefore(acts, 1, {l}, {}, {l}, {l});
    OneBefore(acts, 0, {}, {}, {l}, {});
    assert acts[0..] == acts;
  }

  lemma LeaveBoth(acts: seq<Act>, x: nat, y: nat)
    requires x != y && acts == [Free(x), Leave(x), Free(y), Leave(y)]
    ensures Orderly(acts, {x, y}, {x, y})
  {
    hide Orderly;
    Nothing(acts);
    OneBefore(acts, 3, {y}, {}, {}, {});
    OneBefore(acts, 2, {y}, {y}, {y}, {});
    OneBefore(acts, 1, {x, y}, {y}, {y}, {y});
    OneBefore(acts, 0, {x, y}, {x, y}, {x, y}, {y});
    assert acts[0..] == acts;
  }

  lemma LogOrderly(l: nat, h: nat)
    requires l != h
    ensures Orderly(LogActs(l, h), {}, {})
  {
    hide Orderly;
    var p, both := LogActs(l, h), {l, h};
    LeaveBoth(p[5..], h, l);
    assert {h, l} == both;
    OneBefore(p, 4, both, both, both, both);
    TakeBoth(p, l, h);
  }

  lemma Nothing(acts: seq<Act>)
    ensures Orderly(acts[|acts|..], {}, {})
  {
  }

  lemma HeadOrderly(b: nat)
    ensures Orderly(HeadActs(b), {}, {})
  {
    hide Orderly;
    var p := HeadActs(b);
    Nothing(p);
    OneBefore(p, 4, {b}, {}, {}, {});
    OneBefore(p, 3, {b}, {b}, {b}, {});
    OneBefore(p, 2, {b}, {b}, {b}, {b});
    OneBefore(p, 1, {b}, {}, {b}, {b});
    OneBefore(p, 0, {}, {}, {b}, {});
    assert p[0..] == p;
  }

  lemma HomeOrderly(l: nat, h: nat)
    requires l != h
    ensures Orderly(HomeActs(l, h), {}, {})
  {
    hide Orderly;
    var p, both := HomeActs(l, h), {l, h};
    LeaveBoth(p[6..], l, h);
    OneBefore(p, 5, both, both, both, both);
    OneBefore(p, 4, both, both, both, both);
    TakeBoth(p, l, h);
  }

  /** Every turn can be begun by whoever holds nothing. */
  lemma TurnOrderly(start: nat, bs: seq<nat>, turn: nat)
    requires turn < Turns(|bs|) && |bs| <= LOGBLOCKS && forall i :: 0 <= i < |bs| ==> !InLog(start, bs[i])
    ensures Orderly(TurnActs(start, bs, turn), {}, {})
  {
    var n := |bs|;
    if turn < n {
      LogOrderly(start + 1 + turn, bs[turn]);
    } else if turn == n || turn == 2 * n + 1 {
      HeadOrderly(start);
    } else {
      HomeOrderly(start + turn - n, bs[turn - n - 1]);
    }
  }

  // ---- the steps ----

  /** Who may ask for what: only home blocks, one reference a process, only the holder changes a block or
      unlocks it, and an operation logs at most MAXOPBLOCKS new blocks. */
  predicate Legal(procs: seq<P.Proc>, users: seq<set<nat>>, holder: seq<Option<nat>>, start: nat, op: Op) {
    match op
    case Begin(p) => p < |procs| && procs[p].Out?
    case Get(p, b) => p < |procs| && b < |users| && !InLog(start, b) && p !in users[b]
    case Lock(p, b) => p < |procs| && b < |users| && b < |holder| && p in users[b] && holder[b] != Some(p)
    case Put(p, b, _) => p < |procs| && procs[p].In? && procs[p].added < MAXOPBLOCKS && b < |holder| && holder[b] == Some(p)
    case Unlock(p, b) => p < |procs| && b < |holder| && holder[b] == Some(p)
    case Unref(p, b) => p < |procs| && b < |users| && b < |holder| && p in users[b] && holder[b] != Some(p)
    case End(p) => p < |procs| && procs[p].In?
    case Commit => true
  }

  predicate Sized(s: State) {
    |s.cur| == |s.users| == |s.holder|
  }

  predicate Home(s: State, start: nat, b: nat) {
    b < |s.cur| && !InLog(start, b)
  }

  /** What holds between any two steps. Nothing is logged, or the header is written, only when the current
      contents are a saved version. */
  predicate Inv(s: State, start: nat) {
    && P.Inv(s.log) && s.saves != [] && Sized(s) && start + LOGBLOCKS < |s.cur|
    && (forall i :: 0 <= i < |s.saves| ==> |s.saves[i]| == |s.cur|)
    && (forall i :: 0 <= i < |s.log.blocks| ==> Home(s, start, s.log.blocks[i]))
    && (forall b :: 0 <= b < |s.cur| ==> Held(s, start, b))
    && At(s, start) && InOrder(s, start)
    && (s.log.blocks == [] || Issued(s) > |s.log.blocks| ==> s.saves[|s.saves| - 1] == s.cur)
  }

  predicate Held(s: State, start: nat, b: nat)
    requires b < |s.users| && b < |s.holder|
  {
    && (s.holder[b].Some? ==> s.holder[b].value in s.users[b])
    && (InLog(start, b) ==> s.users[b] <= {Committer(s)}) && forall p :: p in s.users[b] ==> p <= Committer(s)
  }

  /** Where a commit can be: in a turn, or in what is left of the last one. */
  predicate At(s: State, start: nat) {
    && s.pos <= |Acts(s, start)|
    && match s.log.phase
       case Idle => s.turn == 0 && s.pos == 0
       case Writing =>
         var n := |s.log.blocks|;
         if n == 0 then s.turn == 0 && s.pos == 0
         else s.turn < Turns(n) && s.pos < |Acts(s, start)| && (s.turn == 2 * n + 1 ==> s.pos <= 2)
       case Written => s.turn == 0 && s.pos >= 3
  }

  /** The commit has what the rest of its turn takes, and nothing else. */
  predicate InOrder(s: State, start: nat)
    requires At(s, start)
  {
    && Orderly(Acts(s, start)[s.pos..], Refs(s), Locks(s))
    && (s.pos == 0 ==> Refs(s) == {} && Locks(s) == {})
  }

  /** bget by any user. */
  function Ref(s: State, p: nat, b: nat): (r: (State, Out))
    requires Sized(s) && b < |s.users|
    ensures Sized(r.0)
  {
    if s.users[b] == {} && !Pinned(s, b) && |InUse(s)| >= NBUF then (s.(stuck := true), Panic)
    else (s.(users := s.users[b := s.users[b] + {p}]), Done)
  }

  function Drop(s: State, p: nat, b: nat): (t: State)
    requires Sized(s) && b < |s.users|
    ensures Sized(t)
  {
    s.(users := s.users[b := s.users[b] - {p}])
  }

  function Hold(s: State, b: nat, p: Option<nat>): (t: State)
    requires Sized(s) && b < |s.users|
    ensures Sized(t)
  {
    s.(holder := s.holder[b := p])
  }

  /** On to the next step of the turn, or to the next turn. */
  function Next(s: State, start: nat): (t: State) {
    if s.log.phase.Writing? && s.pos + 1 >= |Acts(s, start)| then s.(turn := s.turn + 1, pos := 0) else s.(pos := s.pos + 1)
  }

  /** A device write: the first header saves the current contents, the second empties the log. */
  function Wrote(s: State, start: nat): (t: State) {
    var n := |s.log.blocks|;
    if s.log.phase.Writing? && s.turn == 2 * n + 1 then s.(log := P.Step(s.log, P.Commit), turn := 0, pos := s.pos + 1)
    else Next(if s.turn == n then s.(saves := s.saves + [s.cur]) else s, start)
  }

  function Does(s: State, start: nat, act: Act): (r: (State, Out))
    requires Sized(s)
    ensures Sized(r.0)
  {
    var c := Committer(s);
    if !(act.Copy? || act.b < |s.users|) then (s, Refused)
    else
      match act
      case Take(b) => var (t, o) := Ref(s, c, b); (if o.Done? then Next(t, start) else t, o)
      case Seize(b) => if s.holder[b].Some? then (s, Waits) else (Next(Hold(s, b, Some(c)), start), Done)
      case Copy(_, _) => (Wrote(s, start), Done)
      case PutHead(_) => (Wrote(s, start), Done)
      case Unpin(_) => (Next(s, start), Done)
      case Free(b) => (Next(Hold(s, b, None), start), Done)
      case Leave(b) => (Next(Drop(s, c, b), start), Done)
  }

  /** The next step of a commit, if there is one. */
  function Turn(s: State, start: nat): (r: (State, Out))
    requires Sized(s)
    ensures Sized(r.0)
  {
    if s.pos < |Acts(s, start)| then Does(s, start, Acts(s, start)[s.pos])
    else if s.log.phase.Written? then (s.(log := P.Step(s.log, P.CommitDone), pos := 0), Done)
    else if s.log.phase.Writing? then (s.(log := P.Step(s.log, P.Commit), pos := |HeadActs(start)|), Done)
    else (s, Refused)
  }

  /** One step, and what comes of it. After a panic there are none. */
  function Step(s: State, start: nat, op: Op): (r: (State, Out))
    requires Sized(s)
    ensures Sized(r.0)
  {
    if s.stuck || !Legal(s.log.procs, s.users, s.holder, start, op) then (s, Refused)
    else
      match op
      case Begin(p) => (s.(log := P.Step(s.log, P.BeginOp(p))), if P.MustWait(s.log) then Waits else Done)
      case Get(p, b) => Ref(s, p, b)
      case Lock(p, b) => if s.holder[b].Some? then (s, Waits) else (Hold(s, b, Some(p)), Data(s.cur[b]))
      case Put(p, b, data) => (s.(log := P.Step(s.log, P.LogWrite(p, b)), cur := s.cur[b := data]), Done)
      case Unlock(p, b) => (Hold(s, b, None), Done)
      case Unref(p, b) => (Drop(s, p, b), Done)
      case End(p) => (s.(log := P.Step(s.log, P.EndOp(p))), Done)
      case Commit => Turn(s, start)
  }

  // ---- every step keeps the invariant ----

  /** A step that the commit takes, of which the rest of its turn is left. */
  lemma Onward(s: State, t: State, start: nat)
    requires At(s, start) && InOrder(s, start) && s.pos < |Acts(s, start)| && |s.log.blocks| <= LOGBLOCKS
    requires forall i :: 0 <= i < |s.log.blocks| ==> !InLog(start, s.log.blocks[i])
    requires var act := Acts(s, start)[s.pos];
             && t == Next(s.(users := t.users, holder := t.holder, saves := t.saves), start)
             && Refs(t) == RefsAfter(act, Refs(s)) && Locks(t) == LocksAfter(act, Locks(s))
             && !(s.turn == 2 * |s.log.blocks| + 1 && act.PutHead?)
    ensures At(t, start) && InOrder(t, start)
  {
    hide Orderly, RefsAfter, LocksAfter, Refs, Locks;
    var acts := Acts(s, start);
    OrderlyFrom(acts, s.pos, Refs(s), Locks(s));
    if s.log.phase.Writing? && s.pos + 1 == |acts| {
      AllDone(acts, Refs(t), Locks(t));
      TurnOrderly(start, s.log.blocks, s.turn + 1);
      assert Acts(t, start)[0..] == Acts(t, start);
    }
  }

  lemma AllDone(acts: seq<Act>, refs: set<nat>, locks: set<nat>)
    requires Orderly(acts[|acts|..], refs, locks)
    ensures refs == {} && locks == {}
  {
  }

  /** What the commit may do now. */
  lemma AllowedNow(s: State, start: nat)
    requires At(s, start) && InOrder(s, start) && s.pos < |Acts(s, start)|
    ensures Allowed(Acts(s, start)[s.pos], Refs(s), Locks(s))
  {
    OrderlyFrom(Acts(s, start), s.pos, Refs(s), Locks(s));
  }

  /** Every block that a step of a commit names exists. */
  lemma ActInside(s: State, start: nat)
    requires Inv(s, start) && s.pos < |Acts(s, start)|
    ensures var act := Acts(s, start)[s.pos]; act.Copy? || act.b < |s.cur|
  {
    InvAt(s, start);
    assert forall i :: 0 <= i < |s.log.blocks| ==> Home(s, start, s.log.blocks[i]);
  }

  /** Device writes and dropped pins are counted as they happen. */
  lemma Counts(s: State, t: State, start: nat)
    requires At(s, start) && s.pos < |Acts(s, start)|
    requires t == Next(s.(users := t.users, holder := t.holder, saves := t.saves), start)
    ensures var act := Acts(s, start)[s.pos];
            && !(s.log.phase.Written? && (act.Copy? || act.PutHead? || act.Unpin?))
            && Issued(t) == Issued(s) + (if act.Copy? || act.PutHead? then 1 else 0)
            && Installed(t) == Installed(s) + (if act.Unpin? then 1 else 0)
            && (act.Copy? || act.PutHead? ==> s.log.phase.Writing? && Issued(s) == s.turn)
  {
  }

  /** Users and holders after a step of the commit c. */
  function UsersAfter(act: Act, users: seq<set<nat>>, c: nat): (us: seq<set<nat>>) {
    if (act.Take? || act.Leave?) && act.b < |users|
    then users[act.b := if act.Take? then users[act.b] + {c} else users[act.b] - {c}]
    else users
  }

  function HolderAfter(act: Act, holder: seq<Option<nat>>, c: nat): (hs: seq<Option<nat>>) {
    if (act.Seize? || act.Free?) && act.b < |holder| then holder[act.b := if act.Seize? then Some(c) else None] else holder
  }

  lemma DoesHolds(s: State, start: nat, act: Act)
    requires Sized(s) && Does(s, start, act).1.Done? && |Wrote(s, start).log.procs| == |s.log.procs|
    ensures var t := Does(s, start, act).0;
            && t.users == UsersAfter(act, s.users, Committer(s)) && t.holder == HolderAfter(act, s.holder, Committer(s))
            && Committer(t) == Committer(s) && t.stuck == s.stuck && t.cur == s.cur
            && (if act.Copy? || act.PutHead? then t == Wrote(s, start)
                else t == Next(s.(users := t.users, holder := t.holder), start))
            && (act.Seize? ==> act.b < |s.holder| && s.holder[act.b].None?) && (act.Copy? || act.b < |s.users|)
  {
    hide Pinned, InUse;
  }

  lemma ActHolds(s: State, t: State, start: nat, act: Act)
    requires Sized(s) && Sized(t) && Committer(t) == Committer(s) && (forall b :: 0 <= b < |s.users| ==> Held(s, start, b))
    requires t.users == UsersAfter(act, s.users, Committer(s)) && t.holder == HolderAfter(act, s.holder, Committer(s))
    requires Allowed(act, Refs(s), Locks(s)) && (act.Seize? ==> act.b < |s.holder| && s.holder[act.b].None?)
    requires act.Copy? || act.b < |s.users|
    ensures Refs(t) == RefsAfter(act, Refs(s)) && Locks(t) == LocksAfter(act, Locks(s))
    ensures forall b :: 0 <= b < |t.users| ==> Held(t, start, b)
  {
    forall b | 0 <= b < |t.users|
      ensures Held(t, start, b)
    {
      assert Held(s, start, b);
      assert b in Refs(s) <==> Committer(s) in s.users[b];
      assert b in Locks(s) <==> s.holder[b] == Some(Committer(s));
    }
  }

  /** What the invariant says of the rest, when only the commit's place, who holds what and what is saved change. */
  lemma RestKeeps(s: State, t: State, start: nat)
    requires Inv(s, start)
    requires t == s.(users := t.users, holder := t.holder, stuck := t.stuck, turn := t.turn, pos := t.pos, saves := t.saves)
    requires Sized(t) && (forall b :: 0 <= b < |t.users| ==> Held(t, start, b)) && At(t, start) && InOrder(t, start)
    requires t.saves == s.saves + [s.cur] || (t.saves == s.saves && (Issued(t) > |s.log.blocks| ==> Issued(s) > |s.log.blocks|))
    ensures Inv(t, start)
  {
    hide P.Inv, Issued, At, InOrder;
    forall i | 0 <= i < |t.log.blocks|
      ensures Home(t, start, t.log.blocks[i])
    {
      assert Home(s, start, s.log.blocks[i]);
    }
  }

  lemma InvAt(s: State, start: nat)
    requires Inv(s, start)
    ensures Sized(s) && s.saves != [] && (forall b :: 0 <= b < |s.cur| ==> Held(s, start, b))
    ensures At(s, start) && InOrder(s, start)
    ensures start + LOGBLOCKS < |s.cur| && |s.log.blocks| <= LOGBLOCKS && LogSpec.Distinct(s.log.blocks)
    ensures forall i :: 0 <= i < |s.log.blocks| ==> Home(s, start, s.log.blocks[i])
  {
    P.BlocksFit(s.log);
  }

  lemma CommitterSame(s: State, start: nat)
    ensures Committer(Wrote(s, start)) == Committer(s)
  {
  }

  lemma StuckKeeps(s: State, start: nat)
    requires Inv(s, start)
    ensures Inv(s.(stuck := true), start)
  {
    hide P.Inv, Orderly;
    var t := s.(stuck := true);
    assert Refs(t) == Refs(s) && Locks(t) == Locks(s);
    forall b | 0 <= b < |t.users|
      ensures Held(t, start, b)
    {
      assert Held(s, start, b);
    }
    RestKeeps(s, t, start);
  }

  /** The erasing header write: the log is empty, and the rest of write_head is left. */
  lemma EraseKeeps(s: State, start: nat)
    requires Inv(s, start) && s.log.phase.Writing? && s.log.blocks != [] && s.turn == 2 * |s.log.blocks| + 1 && s.pos == 2
    ensures Inv(Wrote(s, start), start)
  {
    hide P.Inv, Orderly;
    P.StepInv(s.log, P.Commit);
    var t := Wrote(s, start);
    OrderlyFrom(Acts(s, start), 2, Refs(s), Locks(s));
    assert Refs(t) == Refs(s) && Locks(t) == Locks(s);
    forall b | 0 <= b < |t.users|
      ensures Held(t, start, b)
    {
      assert Held(s, start, b);
    }
  }

  lemma WhichWrite(s: State, start: nat)
    requires At(s, start) && s.pos < |Acts(s, start)| && s.log.phase.Writing? && s.turn == 2 * |s.log.blocks| + 1
    ensures s.log.blocks != [] && s.pos <= 2
    ensures (Acts(s, start)[s.pos].PutHead? <==> s.pos == 2) && !Acts(s, start)[s.pos].Copy?
  {
  }

  lemma ActKeeps(s: State, start: nat)
    requires Inv(s, start) && s.pos < |Acts(s, start)|
    ensures Sized(s) && Inv(Does(s, start, Acts(s, start)[s.pos]).0, start)
  {
    hide Inv, P.Inv, P.Step, Orderly, InOrder, Held, Refs, Locks, RefsAfter, LocksAfter, UsersAfter, HolderAfter,
         Allowed, At, InUse, Issued, Installed, Acts, Pinned, Next;
    InvAt(s, start);
    AllowedNow(s, start);
    CommitterSame(s, start);
    var act := Acts(s, start)[s.pos];
    var (t, o) := Does(s, start, act);
    if o.Panic? {
      StuckKeeps(s, start);
    } else if o.Done? {
      if s.log.phase.Writing? && s.turn == 2 * |s.log.blocks| + 1 && act.PutHead? {
        WhichWrite(s, start);
        EraseKeeps(s, start);
      } else {
        GoesOn(s, start);
      }
    }
  }

  lemma GoesOn(s: State, start: nat)
    requires Inv(s, start) && s.pos < |Acts(s, start)| && Sized(s)
    requires Does(s, start, Acts(s, start)[s.pos]).1.Done?
    requires !(s.log.phase.Writing? && s.turn == 2 * |s.log.blocks| + 1 && Acts(s, start)[s.pos].PutHead?)
    ensures Inv(Does(s, start, Acts(s, start)[s.pos]).0, start)
  {
    hide Inv, P.Inv, P.Step, Orderly, InOrder, Held, Refs, Locks, RefsAfter, LocksAfter, UsersAfter, HolderAfter,
         Allowed, At, InUse, Issued, Installed, Acts, Pinned, Next, Does;
    InvAt(s, start);
    AllowedNow(s, start);
    CommitterSame(s, start);
    var act := Acts(s, start)[s.pos];
    var t := Does(s, start, act).0;
    DoesHolds(s, start, act);
    ActHolds(s, t, start, act);
    if s.log.phase.Writing? && s.turn == 2 * |s.log.blocks| + 1 {
      WhichWrite(s, start);
    }
    NextIs(s, t, start);
    Onward(s, t, start);
    Counts(s, t, start);
    RestKeeps(s, t, start);
  }

  lemma NextIs(s: State, t: State, start: nat)
    requires (t == Wrote(s, start) && !(s.log.phase.Writing? && s.turn == 2 * |s.log.blocks| + 1))
             || t == Next(s.(users := t.users, holder := t.holder), start)
    ensures t == Next(s.(users := t.users, holder := t.holder, saves := t.saves), start)
    ensures t == s.(users := t.users, holder := t.holder, saves := t.saves, turn := t.turn, pos := t.pos)
    ensures t.saves == s.saves || t.saves == s.saves + [s.cur]
    ensures t == Wrote(s, start) && t.saves == s.saves ==> s.turn != |s.log.blocks|
  {
  }

  lemma TurnKeeps(s: State, start: nat)
    requires Inv(s, start)
    ensures Sized(s) && Inv(Turn(s, start).0, start)
  {
    hide P.Inv, Does, Orderly;
    if s.pos < |Acts(s, start)| {
      ActKeeps(s, start);
    } else if !s.log.phase.Idle? {
      BetweenKeeps(s, start);
    }
  }

  /** The end of a commit, and a commit with nothing logged. */
  lemma BetweenKeeps(s: State, start: nat)
    requires Inv(s, start) && s.pos >= |Acts(s, start)| && !s.log.phase.Idle?
    ensures Sized(s) && Inv(Turn(s, start).0, start)
  {
    hide P.Inv, Does;
    P.StepInv(s.log, if s.log.phase.Written? then P.CommitDone else P.Commit);
    var t := Turn(s, start).0;
    if s.log.phase.Written? {
      NothingLogged(s, start);
    }
    assert Refs(t) == Refs(s) && Locks(t) == Locks(s);
    forall b | 0 <= b < |t.users|
      ensures Held(t, start, b)
    {
      assert Held(s, start, b);
    }
  }

  /** When a commit is over nothing is logged. */
  lemma NothingLogged(s: State, start: nat)
    requires Inv(s, start) && s.log.phase.Written?
    ensures s.log.blocks == []
  {
  }

  /** While an operation is in progress no commit is. */
  lemma InsideIsIdle(s: State, start: nat, p: nat)
    requires Inv(s, start) && p < |s.log.procs| && s.log.procs[p].In?
    ensures s.log.phase.Idle? && s.turn == 0 && s.pos == 0 && s.log.outstanding >= 1
  {
    P.ReserveBounds(s.log.procs, p);
  }

  lemma PutKeeps(s: State, start: nat, p: nat, b: nat, data: Block)
    requires Inv(s, start) && Legal(s.log.procs, s.users, s.holder, start, Put(p, b, data))
    ensures var t := s.(log := P.Step(s.log, P.LogWrite(p, b)), cur := s.cur[b := data]);
            && Inv(t, start) && Home(s, start, b)
            && t.log == s.log.(blocks := if b in s.log.blocks then s.log.blocks else s.log.blocks + [b], procs := t.log.procs)
  {
    hide P.Inv;
    InsideIsIdle(s, start, p);
    P.LogWriteInv(s.log, p, b);
    P.LogWriteRoom(s.log, p, b);
    assert Held(s, start, b);
    var t := s.(log := P.Step(s.log, P.LogWrite(p, b)), cur := s.cur[b := data]);
    LogKeeps(s, t, start);
    forall i | 0 <= i < |t.saves|
      ensures |t.saves[i]| == |t.cur|
    {
    }
  }

  predicate Outside(bs: seq<nat>, start: nat) {
    |bs| <= LOGBLOCKS && forall i :: 0 <= i < |bs| ==> !InLog(start, bs[i])
  }

  /** A step in the log that leaves a commit where it was. */
  lemma LogKeeps(s: State, t: State, start: nat)
    requires Inv(s, start) && t == s.(log := t.log, cur := t.cur) && |t.log.procs| == |s.log.procs| && |t.cur| == |s.cur|
    requires Acts(s, start) == [] && s.turn == 0 && s.pos == 0
    ensures Sized(t) && (forall b :: 0 <= b < |t.cur| ==> Held(t, start, b))
    ensures t.log.phase.Idle? || (t.log.phase.Writing? && Outside(t.log.blocks, start)) ==> At(t, start) && InOrder(t, start)
  {
    hide P.Inv;
    assert Refs(t) == Refs(s) && Locks(t) == Locks(s);
    AllDone(Acts(s, start), Refs(s), Locks(s));
    if t.log.phase.Writing? && t.log.blocks != [] && Outside(t.log.blocks, start) {
      TurnOrderly(start, t.log.blocks, 0);
      assert Acts(t, start)[0..] == Acts(t, start);
    }
    forall b | 0 <= b < |t.cur|
      ensures Held(t, start, b)
    {
      assert Held(s, start, b);
    }
  }

  lemma EndKeeps(s: State, start: nat, p: nat)
    requires Inv(s, start) && Legal(s.log.procs, s.users, s.holder, start, End(p))
    ensures Inv(s.(log := P.Step(s.log, P.EndOp(p))), start)
  {
    hide P.Inv;
    InsideIsIdle(s, start, p);
    P.EndInv(s.log, p);
    var t := s.(log := P.Step(s.log, P.EndOp(p)));
    P.BlocksFit(t.log);
    LogKeeps(s, t, start);
  }

  lemma BeginKeeps(s: State, start: nat, p: nat)
    requires Inv(s, start) && Legal(s.log.procs, s.users, s.holder, start, Begin(p))
    ensures Inv(s.(log := P.Step(s.log, P.BeginOp(p))), start)
  {
    hide P.Inv, Orderly;
    P.BeginInv(s.log, p);
    var t := s.(log := P.Step(s.log, P.BeginOp(p)));
    assert Acts(t, start) == Acts(s, start) && Refs(t) == Refs(s) && Locks(t) == Locks(s);
    forall b | 0 <= b < |t.cur|
      ensures Held(t, start, b)
    {
      assert Held(s, start, b);
    }
  }

  /** Steps by which a process takes a block or lets it go. */
  lemma HoldKeeps(s: State, t: State, start: nat, p: nat, b: nat)
    requires Inv(s, start) && Sized(t) && |t.cur| == |s.cur| && p < Committer(s) && b < |s.cur|
    requires t == s.(users := s.users[b := t.users[b]], holder := s.holder[b := t.holder[b]])
    requires t.users[b] in {s.users[b], s.users[b] + {p}, s.users[b] - {p}} && (InLog(start, b) ==> t.users[b] <= s.users[b])
    requires t.holder[b] != s.holder[b] ==> (s.holder[b], t.holder[b]) in {(None, Some(p)), (Some(p), None)}
    requires t.holder[b] == Some(p) ==> p in t.users[b]
    ensures Inv(t, start)
  {
    hide P.Inv, Orderly;
    assert Held(s, start, b);
    assert Acts(t, start) == Acts(s, start);
    assert Refs(t) == Refs(s);
    assert Locks(t) == Locks(s);
    forall x | 0 <= x < |t.cur|
      ensures Held(t, start, x)
    {
      assert Held(s, start, x);
    }
    RestKeeps(s, t, start);
  }

  lemma StepKeeps(s: State, start: nat, op: Op)
    requires Inv(s, start)
    ensures Sized(s) && Inv(Step(s, start, op).0, start)
  {
    hide Inv, P.Inv, P.Step, Turn, InUse, Pinned;
    InvAt(s, start);
    if !s.stuck && Legal(s.log.procs, s.users, s.holder, start, op) {
      match op
      case Begin(p) => BeginKeeps(s, start, p);
      case Put(p, b, data) => PutKeeps(s, start, p, b, data);
      case End(p) => EndKeeps(s, start, p);
      case Commit => TurnKeeps(s, start);
      case _ =>
        var t := Step(s, start, op).0;
        StuckKeeps(s, start);
        if !t.stuck {
          assert s.users == s.users[op.b := s.users[op.b]] && s.holder == s.holder[op.b := s.holder[op.b]];
          HoldKeeps(s, t, start, op.p, op.b);
        }
    }
  }

  // ---- runs ----

  function Steps(s: State, start: nat, ops: seq<Op>): (r: (State, seq<Out>))
    requires Inv(s, start)
    ensures Inv(r.0, start) && |r.1| == |ops|
  {
    if ops == [] then (s, [])
    else
      var last := |ops| - 1;
      var before := Steps(s, start, ops[..last]);
      var r := Step(before.0, start, ops[last]);
      StepKeeps(before.0, start, ops[last]);
      (r.0, before.1 + [r.1])
  }

  lemma StepsNone(s: State, start: nat)
    requires Inv(s, start)
    ensures Steps(s, start, []) == (s, [])
  {
  }

  lemma StepsMore(s: State, start: nat, ops: seq<Op>, op: Op)
    requires Inv(s, start)
    ensures Sized(Steps(s, start, ops).0)
    ensures Steps(s, start, ops + [op]).0 == Step(Steps(s, start, ops).0, start, op).0
    ensures Steps(s, start, ops + [op]).1 == Steps(s, start, ops).1 + [Step(Steps(s, start, ops).0, start, op).1]
  {
    hide Step, Inv;
    InvAt(Steps(s, start, ops).0, start);
    assert (ops + [op])[..|ops|] == ops;
  }

  /** Nothing held, nothing logged, n processes outside. */
  function Start(d: Disk, n: nat): (s: State) {
    State(P.Boot(n), d, [d], seq(|d|, b => {}), seq(|d|, b => None), 0, 0, false)
  }

  lemma StartInv(d: Disk, n: nat, start: nat)
    requires Layout(d, start)
    ensures Inv(Start(d, n), start)
  {
    P.BootInv(n);
    assert Refs(Start(d, n)) == {} && Locks(Start(d, n)) == {};
  }

  // ---- what the steps mean for the code above ----

  /** A version is saved only when no operation is in progress, so it has all of an operation's changes or
      none of them. */
  lemma SavedWhole(s: State, start: nat, op: Op)
    requires Inv(s, start) && Sized(s) && Step(s, start, op).0.saves != s.saves
    ensures Step(s, start, op).0.saves == s.saves + [s.cur] && forall p :: 0 <= p < |s.log.procs| ==> !s.log.procs[p].In?
  {
    hide Inv, InOrder, At, TurnActs, HeadActs, InUse, Pinned, P.Step;
    assert op.Commit? && !s.log.phase.Idle?;
    assert P.Inv(s.log) by {
      LogInv(s, start);
    }
    P.AllOutOf(s.log.procs);
  }

  lemma LogInv(s: State, start: nat)
    requires Inv(s, start)
    ensures P.Inv(s.log)
  {
  }

  /** When all operations have ended and the commit is over, all their changes are saved. */
  lemma AllSaved(s: State, start: nat)
    requires Inv(s, start) && s.log.phase.Idle? && forall p :: 0 <= p < |s.log.procs| ==> !s.log.procs[p].In?
    ensures s.saves[|s.saves| - 1] == s.cur
  {
    P.NoneInside(s.log.procs);
  }

  /** Only the holder changes a block: what it read when it locked the block, or wrote since, stays. */
  lemma HolderOnly(s: State, start: nat, op: Op, p: nat, b: nat)
    requires Inv(s, start) && b < |s.cur| && s.holder[b] == Some(p)
    requires (op.Put? || op.Unlock? ==> op.p != p) && (op.Commit? ==> p != Committer(s))
    ensures var t := Step(s, start, op).0; |t.cur| == |t.holder| == |s.cur| && t.cur[b] == s.cur[b] && t.holder[b] == Some(p)
  {
    hide Inv, InOrder, At, TurnActs, HeadActs, InUse, Pinned, P.Step, Held;
    InvAt(s, start);
    if op.Commit? && s.pos < |Acts(s, start)| {
      AllowedNow(s, start);
    }
  }

  /** The system panics exactly when NBUF blocks are in use, those of a commit under way among them, and somebody
      asks for another one: a process, or the commit for the first block of a turn. */
  lemma PanicsWhenFull(s: State, start: nat, op: Op)
    requires Inv(s, start)
    ensures Step(s, start, op).1.Panic? <==>
      && !s.stuck && Legal(s.log.procs, s.users, s.holder, start, op) && |InUse(s)| >= NBUF
      && ((op.Get? && op.b !in InUse(s)) || (op.Commit? && s.log.phase.Writing? && s.log.blocks != [] && s.pos == 0))
  {
    hide Inv, Orderly;
    InvAt(s, start);
    if op.Commit? && s.pos < |Acts(s, start)| && Acts(s, start)[s.pos].Take? {
      WhichTake(s, start);
    }
  }

  /** A turn begins with a block of the log area, which nobody uses; the other block that it takes is pinned. */
  lemma WhichTake(s: State, start: nat)
    requires Inv(s, start) && s.pos < |Acts(s, start)| && Acts(s, start)[s.pos].Take?
    ensures var b := Acts(s, start)[s.pos].b;
            && s.log.phase.Writing? && s.log.blocks != [] && b < |s.users|
            && (if s.pos == 0 then s.users[b] == {} && !Pinned(s, b) else Pinned(s, b))
  {
    hide P.Inv, Orderly;
    InvAt(s, start);
    AllowedNow(s, start);
    var b := Acts(s, start)[s.pos].b;
    if s.pos == 0 {
      assert InLog(start, b);
      assert Held(s, start, b);
    } else {
      TakesPinned(s, start);
    }
  }

  lemma TakesPinned(s: State, start: nat)
    requires At(s, start) && 0 < s.pos < |Acts(s, start)| && Acts(s, start)[s.pos].Take?
    ensures Pinned(s, Acts(s, start)[s.pos].b)
  {
    var n, m := |s.log.blocks|, Installed(s);
    var i := if s.turn < n then s.turn else s.turn - n - 1;
    assert s.log.blocks[m..][i - m] == s.log.blocks[i];
  }

  // ---- the buffers can run out ----

  /** With nothing held and no commit under way, the logged blocks are in use. */
  lemma LoggedInUse(s: State, start: nat)
    requires Inv(s, start) && s.turn == 0 && s.pos == 0 && forall b :: 0 <= b < |s.users| ==> s.users[b] == {}
    ensures |InUse(s)| == |s.log.blocks|
  {
    DistinctSize(s.log.blocks);
    assert s.log.blocks[0..] == s.log.blocks;
    forall i | 0 <= i < |s.log.blocks|
      ensures s.log.blocks[i] < |s.users|
    {
      assert Home(s, start, s.log.blocks[i]);
    }
    assert InUse(s) == set i | 0 <= i < |s.log.blocks| :: s.log.blocks[i];
  }

  /** The i-th home block behind the log. */
  function Behind(start: nat, i: nat): (b: nat) {
    start + LOGBLOCKS + 1 + i
  }

  /** Three operations begin; then each in turn holds, changes and lets go MAXOPBLOCKS blocks, k in all. */
  function FillUp(start: nat, k: nat): (ops: seq<Op>) {
    if k == 0 then [] + [Begin(0)] + [Begin(1)] + [Begin(2)]
    else
      var p, b := (k - 1) / MAXOPBLOCKS, Behind(start, k - 1);
      FillUp(start, k - 1) + [Get(p, b)] + [Lock(p, b)] + [Put(p, b, ZeroBlock())] + [Unlock(p, b)] + [Unref(p, b)]
  }

  /** k blocks logged, three operations in progress, nothing held. */
  predicate Filled(s: State, start: nat, k: nat) {
    && Inv(s, start) && s.turn == 0 && s.pos == 0 && !s.stuck
    && s.log.phase.Idle? && s.log.outstanding == 3 && |s.log.procs| == 3
    && Behind(start, LOGBLOCKS) <= |s.cur|
    && |s.log.blocks| == k && (forall i :: 0 <= i < k ==> s.log.blocks[i] == Behind(start, i))
    && (forall b :: 0 <= b < |s.users| ==> s.users[b] == {} && s.holder[b] == None)
    && (forall p :: 0 <= p < 3 ==> s.log.procs[p] == P.In(Share(k, p)))
  }

  /** How many of k blocks are the p-th operation's. */
  function Share(k: nat, p: nat): (n: nat) {
    if k >= (p + 1) * MAXOPBLOCKS then MAXOPBLOCKS else if k <= p * MAXOPBLOCKS then 0 else k - p * MAXOPBLOCKS
  }

  lemma FillBegins(d: Disk, start: nat)
    requires Behind(start, LOGBLOCKS) <= |d|
    ensures Inv(Start(d, 3), start) && Filled(Steps(Start(d, 3), start, FillUp(start, 0)).0, start, 0)
  {
    hide Inv;
    var s := Start(d, 3);
    StartInv(d, 3, start);
    StepsMore(s, start, [], Begin(0));
    StepsMore(s, start, [] + [Begin(0)], Begin(1));
    StepsMore(s, start, [] + [Begin(0)] + [Begin(1)], Begin(2));
    assert Steps(s, start, []) == (s, []);
  }

  lemma FillGoesOn(s: State, start: nat, k: nat)
    requires Filled(s, start, k) && k < LOGBLOCKS
    ensures var p, b := k / MAXOPBLOCKS, Behind(start, k);
            var t := s.(users := s.users[b := {p}]);
            var u := t.(holder := s.holder[b := Some(p)]);
            var l := P.State(s.log.blocks + [b], 3, P.Idle, s.log.procs[p := P.In(Share(k, p) + 1)], false);
            var v := u.(log := l, cur := s.cur[b := ZeroBlock()]);
            var w := v.(holder := s.holder);
            var x := w.(users := s.users);
            && Step(s, start, Get(p, b)) == (t, Done) && Step(t, start, Lock(p, b)) == (u, Data(s.cur[b]))
            && Step(u, start, Put(p, b, ZeroBlock())) == (v, Done) && Step(v, start, Unlock(p, b)) == (w, Done)
            && Step(w, start, Unref(p, b)) == (x, Done)
  {
    hide InUse, Turn, Orderly;
    InvAt(s, start);
    LoggedInUse(s, start);
    var p, b := k / MAXOPBLOCKS, Behind(start, k);
    assert s.users[b] == {} && {} + {p} == {p} && {p} - {p} == {};
    assert s.users[b := {p}][b := {}] == s.users;
    assert s.holder[b := Some(p)][b := None] == s.holder;
    assert b !in s.log.blocks;
  }

  /** Five steps on. */
  lemma StepsFive(s: State, start: nat, ops: seq<Op>, a: Op, b: Op, c: Op, d: Op, e: Op)
    requires Inv(s, start)
    ensures var m := Steps(s, start, ops).0;
            && Sized(m)
            && Steps(s, start, ops + [a] + [b] + [c] + [d] + [e]).0 ==
                 Step(Step(Step(Step(Step(m, start, a).0, start, b).0, start, c).0, start, d).0, start, e).0
  {
    hide Step, Inv, Steps;
    StepsMore(s, start, ops, a);
    StepsMore(s, start, ops + [a], b);
    StepsMore(s, start, ops + [a] + [b], c);
    StepsMore(s, start, ops + [a] + [b] + [c], d);
    StepsMore(s, start, ops + [a] + [b] + [c] + [d], e);
  }

  lemma {:induction false} FillReaches(d: Disk, start: nat, k: nat)
    requires Behind(start, LOGBLOCKS) <= |d| && k <= LOGBLOCKS
    ensures Inv(Start(d, 3), start) && Filled(Steps(Start(d, 3), start, FillUp(start, k)).0, start, k)
  {
    hide Step, Inv, Steps, Start;
    FillBegins(d, start);
    if k > 0 {
      FillReaches(d, start, k - 1);
      var s, ops := Start(d, 3), FillUp(start, k - 1);
      var p, b := (k - 1) / MAXOPBLOCKS, Behind(start, k - 1);
      StepsFive(s, start, ops, Get(p, b), Lock(p, b), Put(p, b, ZeroBlock()), Unlock(p, b), Unref(p, b));
      FillGoesOn(Steps(s, start, ops).0, start, k - 1);
      assert Inv(Steps(s, start, FillUp(start, k)).0, start);
    }
  }

  /** The fill, the ends of the three operations, and the first turn of the commit. */
  function Overfull(start: nat): (ops: seq<Op>) {
    FillUp(start, LOGBLOCKS) + [End(0)] + [End(1)] + [End(2)] + [Commit]
  }

  lemma LastEnds(s: State, start: nat)
    requires Filled(s, start, LOGBLOCKS)
    ensures var t := Step(s, start, End(0)).0;
            var u := Step(t, start, End(1)).0;
            var v := Step(u, start, End(2)).0;
            && t == s.(log := t.log) && u == s.(log := u.log) && v == s.(log := v.log)
            && v.log.phase.Writing? && v.log.blocks == s.log.blocks && |v.log.blocks| == LOGBLOCKS
  {
    assert forall p :: 0 <= p < 3 ==> s.log.procs[p].In?;
  }

  /** Three operations, each within its limit, log as many blocks as there are buffers; then the commit finds
      no buffer for the log area, and the system panics. */
  lemma OverfullPanics(d: Disk, start: nat)
    requires Behind(start, LOGBLOCKS) <= |d|
    ensures Inv(Start(d, 3), start)
    ensures var outs := Steps(Start(d, 3), start, Overfull(start)).1; outs != [] && outs[|outs| - 1] == Panic
  {
    hide Step, Inv, Steps, Start, FillUp, InUse;
    FillReaches(d, start, LOGBLOCKS);
    var s, ops := Start(d, 3), FillUp(start, LOGBLOCKS);
    var f := Steps(s, start, ops).0;
    InvAt(f, start);
    LastEnds(f, start);
    StepsMore(s, start, ops, End(0));
    StepsMore(s, start, ops + [End(0)], End(1));
    StepsMore(s, start, ops + [End(0)] + [End(1)], End(2));
    var e := Steps(s, start, ops + [End(0)] + [End(1)] + [End(2)]).0;
    LoggedInUse(e, start);
    PanicsWhenFull(e, start, Commit);
    StepsMore(s, start, ops + [End(0)] + [End(1)] + [End(2)], Commit);
  }
}
