/** The publish step of `build_fixture` one system call at a time, interleaved with other processes that
    create, replace and remove entries of the same directory.

    The code names an entry twice: it links and then looks up what it linked, and it compares an entry
    and then unlinks it. Between the two calls another process can do harm in two ways: it can replace a
    linked entry before it is identified while a further output is still to be linked, and it can replace
    or remove an entry before its removal. `HarmExactly` shows that these touches, and no others, can make
    the publisher remove a foreign entry or fail in its clean-up. What success means, that no entry is
    overwritten and that the publisher comes to an end is shown for all runs, the withdrawal after a failure
    for all runs without such a touch. */
module PublishProtocol {
  import opened Sequences

  type Path = string
  type Inode = int

  datatype Config = Config(destinations: seq<Path>, sources: seq<Inode>)
  {
    ghost predicate Valid() { |destinations| == |sources| }
    predicate Own(i: Inode) { i in sources }
  }

  datatype Created = Created(path: Path, inode: Inode)

  datatype Phase =
    | Checking(k: nat)     // destination k is about to be looked for
    | Linking(k: nat)      // source k is about to be linked
    | Identifying(k: nat)  // source k is linked, its identity not yet recorded
    | Undoing(k: nat)      // created output k is about to be compared
    | Removing(k: nat)     // created output k was found unchanged and is about to be unlinked
    | Rejected             // a destination existed at the start
    | Published
    | Failed               // every created output has been dealt with, the error is raised
    | Abandoned            // the clean-up itself raised

  /** `touched` remembers every path another process has changed. */
  datatype State = State(entries: map<Path, Inode>, created: seq<Created>, phase: Phase, touched: set<Path>)

  predicate Terminal(s: State) { s.phase.Rejected? || s.phase.Published? || s.phase.Failed? || s.phase.Abandoned? }

  /** Phases carry indices in range. */
  ghost predicate InRange(c: Config, s: State) {
    && c.Valid()
    && (s.phase.Checking? || s.phase.Linking? ==> s.phase.k <= |c.destinations|)
    && (s.phase.Identifying? ==> s.phase.k < |c.destinations|)
    && (s.phase.Undoing? ==> s.phase.k <= |s.created|)
    && (s.phase.Removing? ==> s.phase.k < |s.created|)
  }

  /** The next system call of the publisher; `fault` is a link failing for a reason of its own. */
  function Next(c: Config, s: State, fault: bool): (r: State)
    requires InRange(c, s)
    ensures InRange(c, r)
  {
    match s.phase
    case Checking(k) =>
      if k == |c.destinations| then s.(phase := Linking(0))
      else if c.destinations[k] in s.entries then s.(phase := Rejected)
      else s.(phase := Checking(k + 1))
    case Linking(k) =>
      if k == |c.destinations| then s.(phase := Published)
      else if fault || c.destinations[k] in s.entries then s.(phase := Undoing(0))
      else s.(entries := s.entries[c.destinations[k] := c.sources[k]], phase := Identifying(k))
    case Identifying(k) =>
      var path := c.destinations[k];
      if path !in s.entries then s.(phase := Undoing(0))
      else s.(created := s.created + [Created(path, s.entries[path])], phase := Linking(k + 1))
    case Undoing(k) =>
      if k == |s.created| then s.(phase := Failed)
      else if s.created[k].path in s.entries && s.entries[s.created[k].path] == s.created[k].inode
        then s.(phase := Removing(k))
      else s.(phase := Undoing(k + 1))
    case Removing(k) =>
      var path := s.created[k].path;
      if path !in s.entries then s.(phase := Abandoned)
      else s.(entries := s.entries - {path}, phase := Undoing(k + 1))
    case _ => s
  }

  datatype Change = Put(path: Path, inode: Inode) | Remove(path: Path)

  /** What another process does. */
  function Disturb(s: State, change: Change): State {
    match change
    case Put(p, i) => s.(entries := s.entries[p := i], touched := s.touched + {p})
    case Remove(p) => s.(entries := s.entries - {p}, touched := s.touched + {p})
  }

  /** Other processes write inodes of their own. */
  predicate Foreign(c: Config, change: Change) { change.Put? ==> !c.Own(change.inode) }

  /** A replacement that will be recorded as created although the publisher may still fail, or a change of
      the entry about to be removed. */
  predicate Harmful(c: Config, s: State, change: Change)
    requires InRange(c, s)
  {
    match s.phase
    case Identifying(k) => k + 1 < |c.destinations| && change.Put? && change.path == c.destinations[k]
    case Removing(k) => change.path == s.created[k].path
    case _ => false
  }

  predicate Quiet(c: Config, s: State, change: Change)
    requires InRange(c, s)
  {
    Foreign(c, change) && !Harmful(c, s, change)
  }

  datatype Move = Publisher(fault: bool) | Other(change: Change)

  ghost predicate Allowed(c: Config, s: State, m: Move)
    requires InRange(c, s)
  {
    m.Other? ==> Quiet(c, s, m.change)
  }

  function After(c: Config, s: State, m: Move): State
    requires InRange(c, s)
  {
    match m
    case Publisher(fault) => Next(c, s, fault)
    case Other(change) => Disturb(s, change)
  }

  ghost predicate Initial(c: Config, s: State) {
    && c.Valid()
    && s.phase == Checking(0) && s.created == [] && s.touched == {}
    && forall p :: p in s.entries ==> !c.Own(s.entries[p])
  }

  /** A run: every state follows from the one before by a call of the publisher or by whatever another process
      does. */
  ghost predicate AnyRun(c: Config, states: seq<State>, moves: seq<Move>) {
    && |states| == |moves| + 1
    && Initial(c, states[0])
    && forall i :: 0 <= i < |moves| ==> InRange(c, states[i]) && states[i + 1] == After(c, states[i], moves[i])
  }

  /** A run without a harmful touch. */
  ghost predicate Run(c: Config, states: seq<State>, moves: seq<Move>) {
    && AnyRun(c, states, moves)
    && forall i :: 0 <= i < |moves| ==> Allowed(c, states[i], moves[i])
  }

  // ---------- what nobody can break ----------

  ghost predicate LinkedUnlessTouched(c: Config, s: State, k: nat)
    requires c.Valid() && k < |c.destinations|
  {
    var p := c.destinations[k];
    p !in s.touched ==> p in s.entries && s.entries[p] == c.sources[k]
  }

  ghost predicate Kept(c: Config, s: State) {
    && InRange(c, s)
    && |s.created| <= |c.destinations|
    && (forall j :: 0 <= j < |s.created| ==> s.created[j].path == c.destinations[j])
    && (s.phase.Checking? || s.phase.Rejected? ==> |s.created| == 0)
    && (s.phase.Linking? || s.phase.Identifying? ==> |s.created| == s.phase.k)
    && (s.phase.Published? ==> |s.created| == |c.destinations|)
    && (s.phase.Undoing? || s.phase.Removing? ==> |s.created| < |c.destinations|)
    && (s.phase.Linking? || s.phase.Identifying? || s.phase.Published? ==>
          forall j :: 0 <= j < |s.created| ==> LinkedUnlessTouched(c, s, j))
    && (s.phase.Identifying? ==> LinkedUnlessTouched(c, s, s.phase.k))
  }

  lemma MoveKeeps(c: Config, s: State, m: Move)
    requires Kept(c, s)
    ensures Kept(c, After(c, s, m))
  {
    var s' := After(c, s, m);
    if s'.phase.Linking? || s'.phase.Identifying? || s'.phase.Published? {
      forall j | 0 <= j < |s'.created| ensures LinkedUnlessTouched(c, s', j) {
        assert j < |s.created| ==> LinkedUnlessTouched(c, s, j);
      }
    }
  }

  lemma {:induction false} AnyRunKeeps(c: Config, states: seq<State>, moves: seq<Move>, i: nat)
    requires AnyRun(c, states, moves) && i < |states|
    ensures Kept(c, states[i])
  {
    if i > 0 {
      AnyRunKeeps(c, states, moves, i - 1);
      MoveKeeps(c, states[i - 1], moves[i - 1]);
    }
  }

  // ---------- the invariant ----------

  /** Created output j is this entry, and the clean-up has not passed it. */
  predicate Recorded(s: State, p: Path, j: nat)
    requires p in s.entries
  {
    && j < |s.created| && s.created[j] == Created(p, s.entries[p])
    && (s.phase.Undoing? || s.phase.Removing? ==> s.phase.k <= j)
  }

  /** An entry naming one of our inodes is still to be dealt with by the clean-up. */
  ghost predicate Pending(c: Config, s: State, p: Path)
    requires p in s.entries
  {
    || (s.phase.Identifying? && s.phase.k < |c.destinations| && p == c.destinations[s.phase.k])
    || exists j :: Recorded(s, p, j)
  }

  /** The entry about to be identified is the linked file, unless another process has removed it, or
      replaced it as the last output. */
  ghost predicate IdentifiesOwn(c: Config, s: State)
    requires InRange(c, s) && s.phase.Identifying?
  {
    var k := s.phase.k;
    var p := c.destinations[k];
    p in s.entries && k + 1 < |c.destinations| ==> s.entries[p] == c.sources[k]
  }

  ghost predicate Inv(c: Config, s: State) {
    && Kept(c, s)
    && (forall j :: 0 <= j < |s.created| && j + 1 < |c.destinations| ==>
          s.created[j] == Created(c.destinations[j], c.sources[j]))
    && (s.phase.Identifying? ==> IdentifiesOwn(c, s))
    && (s.phase.Removing? ==>
          s.created[s.phase.k].path in s.entries && s.entries[s.created[s.phase.k].path] == s.created[s.phase.k].inode)
    && !s.phase.Abandoned?
    && (forall p :: p in s.entries && c.Own(s.entries[p]) ==> Pending(c, s, p))
    && (s.phase.Failed? || s.phase.Rejected? ==> forall p :: p in s.entries ==> !c.Own(s.entries[p]))
  }

  lemma InitialInv(c: Config, s: State)
    requires Initial(c, s)
    ensures Inv(c, s)
  {
  }

  lemma NextKeepsInv(c: Config, s: State, fault: bool)
    requires Inv(c, s)
    ensures Inv(c, Next(c, s, fault))
  {
    var s' := Next(c, s, fault);
    MoveKeeps(c, s, Publisher(fault));
    forall p | p in s'.entries && c.Own(s'.entries[p]) ensures Pending(c, s', p) {
      NextKeepsPending(c, s, fault, p);
    }
  }

  lemma NextKeepsPending(c: Config, s: State, fault: bool, p: Path)
    requires Inv(c, s) && p in Next(c, s, fault).entries && c.Own(Next(c, s, fault).entries[p])
    ensures Pending(c, Next(c, s, fault), p)
  {
    var s' := Next(c, s, fault);
    if s.phase.Linking? && s'.phase.Identifying? && p == c.destinations[s.phase.k] {
    } else {
      assert p in s.entries && s.entries[p] == s'.entries[p] && Pending(c, s, p);
      if j :| Recorded(s, p, j) {
        assert Recorded(s', p, j);
      } else {
        assert Recorded(s', p, s.phase.k);
      }
    }
  }

  lemma DisturbKeepsInv(c: Config, s: State, change: Change)
    requires Inv(c, s) && Quiet(c, s, change)
    ensures Inv(c, Disturb(s, change))
  {
    var s' := Disturb(s, change);
    MoveKeeps(c, s, Other(change));
    forall p | p in s'.entries && c.Own(s'.entries[p]) ensures Pending(c, s', p) {
      assert p in s.entries && s.entries[p] == s'.entries[p] && Pending(c, s, p);
      if j :| Recorded(s, p, j) {
        assert Recorded(s', p, j);
      }
    }
  }

  lemma {:induction false} RunKeepsInv(c: Config, states: seq<State>, moves: seq<Move>, i: nat)
    requires Run(c, states, moves) && i < |states|
    ensures Inv(c, states[i])
  {
    if i == 0 {
      InitialInv(c, states[0]);
    } else {
      RunKeepsInv(c, states, moves, i - 1);
      match moves[i - 1]
      case Publisher(fault) => NextKeepsInv(c, states[i - 1], fault);
      case Other(change) => DisturbKeepsInv(c, states[i - 1], change);
    }
  }

  // ---------- what it means ----------

  /** Success, whatever others did: every destination nobody else has changed names the file linked to it. */
  lemma PublishedMeansLinked(c: Config, states: seq<State>, moves: seq<Move>, i: nat, k: nat)
    requires AnyRun(c, states, moves) && i < |states| && states[i].phase == Published
    requires k < |c.destinations| && c.destinations[k] !in states[i].touched
    ensures c.destinations[k] in states[i].entries && states[i].entries[c.destinations[k]] == c.sources[k]
  {
    AnyRunKeeps(c, states, moves, i);
    assert LinkedUnlessTouched(c, states[i], k);
  }

  /** Failure: no entry of the directory still names one of the linked files, and the clean-up never raises. */
  lemma FailedMeansWithdrawn(c: Config, states: seq<State>, moves: seq<Move>, i: nat)
    requires Run(c, states, moves) && i < |states|
    ensures states[i].phase != Abandoned
    ensures states[i].phase == Failed || states[i].phase == Rejected ==>
      forall p :: p in states[i].entries ==> !c.Own(states[i].entries[p])
  {
    RunKeepsInv(c, states, moves, i);
  }

  /** Whatever others did, a call of the publisher overwrites nothing, adds only its own inodes at its own
      destinations, and removes entries at its destinations only, the last excepted. */
  lemma PublisherOverwritesNothing(c: Config, states: seq<State>, moves: seq<Move>, i: nat, p: Path)
    requires AnyRun(c, states, moves) && i < |moves| && moves[i].Publisher?
    ensures var before, after := states[i].entries, states[i + 1].entries;
      && (p in before && p in after ==> after[p] == before[p])
      && (p !in before && p in after ==> p in c.destinations && c.Own(after[p]))
      && (p in before && p !in after ==> exists k :: 0 <= k < |c.destinations| - 1 && p == c.destinations[k])
  {
    AnyRunKeeps(c, states, moves, i);
  }

  /** Without a harmful touch it removes nothing foreign. */
  lemma PublisherHarmsNothing(c: Config, states: seq<State>, moves: seq<Move>, i: nat, p: Path)
    requires Run(c, states, moves) && i < |moves| && moves[i].Publisher?
    requires p in states[i].entries && !c.Own(states[i].entries[p])
    ensures p in states[i + 1].entries && states[i + 1].entries[p] == states[i].entries[p]
  {
    RunKeepsInv(c, states, moves, i);
  }

  // ---------- it always ends ----------

  /** Calls still to come, at most. */
  function Rank(c: Config, s: State): nat
    requires InRange(c, s)
  {
    var n := |c.destinations|;
    match s.phase
    case Checking(k) => (n - k) + 4 * n + 4
    case Linking(k) => 2 * (n - k) + 2 * n + 3
    case Identifying(k) => 2 * (n - k) + 2 * n + 2
    case Undoing(k) => 2 * (|s.created| - k) + 1
    case Removing(k) => 2 * (|s.created| - k)
    case _ => 0
  }

  /** The publisher is never stuck, each of its calls brings it closer to the end, and other processes
      cannot push it back, whatever they do. */
  lemma PublisherTerminates(c: Config, s: State, m: Move)
    requires Kept(c, s)
    ensures InRange(c, After(c, s, m))
    ensures m.Publisher? && !Terminal(s) ==> Rank(c, After(c, s, m)) < Rank(c, s)
    ensures m.Other? ==> Rank(c, After(c, s, m)) == Rank(c, s)
    ensures Rank(c, s) == 0 ==> Terminal(s)
    ensures Rank(c, s) <= 5 * |c.destinations| + 4
  {
  }

  /** The calls the publisher has made by state i before it stopped. */
  function Calls(states: seq<State>, moves: seq<Move>, i: nat): nat
    requires i <= |moves| < |states|
  {
    if i == 0 then 0
    else Calls(states, moves, i - 1) + if moves[i - 1].Publisher? && !Terminal(states[i - 1]) then 1 else 0
  }

  /** Along every run, harmful touches or not, the publisher makes at most 5n + 4 calls, and once it has made them it has stopped. */
  lemma {:induction false} RunsAreShort(c: Config, states: seq<State>, moves: seq<Move>, i: nat)
    requires AnyRun(c, states, moves) && i <= |moves|
    ensures Calls(states, moves, i) <= 5 * |c.destinations| + 4
    ensures Calls(states, moves, i) == 5 * |c.destinations| + 4 ==> Terminal(states[i])
    ensures InRange(c, states[i]) && Calls(states, moves, i) + Rank(c, states[i]) <= 5 * |c.destinations| + 4
  {
    RankInRange(c, states, moves, i);
    if i > 0 {
      RunsAreShort(c, states, moves, i - 1);
      RankDrops(c, states, moves, i - 1);
    }
  }

  lemma RankInRange(c: Config, states: seq<State>, moves: seq<Move>, i: nat)
    requires AnyRun(c, states, moves) && i < |states|
    ensures InRange(c, states[i]) && Rank(c, states[i]) <= 5 * |c.destinations| + 4
    ensures Rank(c, states[i]) == 0 ==> Terminal(states[i])
  {
    AnyRunKeeps(c, states, moves, i);
    PublisherTerminates(c, states[i], Publisher(false));
  }

  lemma RankDrops(c: Config, states: seq<State>, moves: seq<Move>, i: nat)
    requires AnyRun(c, states, moves) && i < |moves|
    ensures InRange(c, states[i]) && InRange(c, states[i + 1])
    ensures Rank(c, states[i + 1]) <= Rank(c, states[i])
    ensures moves[i].Publisher? && !Terminal(states[i]) ==> Rank(c, states[i + 1]) < Rank(c, states[i])
  {
    AnyRunKeeps(c, states, moves, i);
    var s, m := states[i], moves[i];
    PublisherTerminates(c, s, m);
    assert m.Publisher? && Terminal(s) ==> After(c, s, m) == s;
  }

  // ---------- which touches do harm ----------

  /** The publisher going on alone. */
  function PlayOn(c: Config, s: State, faults: seq<bool>): (r: State)
    requires InRange(c, s)
    ensures InRange(c, r)
    decreases faults
  {
    if faults == [] then s else PlayOn(c, Next(c, s, faults[0]), faults[1..])
  }

  lemma {:induction false} PlayAppend(c: Config, s: State, a: seq<bool>, b: seq<bool>)
    requires InRange(c, s)
    ensures PlayOn(c, s, a + b) == PlayOn(c, PlayOn(c, s, a), b)
    decreases a
  {
    if a == [] {
      assert a + b == b;
    } else {
      assert (a + b)[0] == a[0] && (a + b)[1..] == a[1..] + b;
      PlayAppend(c, Next(c, s, a[0]), a[1..], b);
    }
  }

  /** The next call removes an entry of another process, or the clean-up has raised. */
  predicate Breaks(c: Config, s: State)
    requires InRange(c, s)
  {
    || s.phase.Abandoned?
    || (s.phase.Removing?
        && var p := s.created[s.phase.k].path; p in s.entries && !c.Own(s.entries[p]))
  }

  /** Going on alone under these link failures leads there. */
  predicate BreaksAfter(c: Config, s: State, faults: seq<bool>)
    requires InRange(c, s)
  {
    Breaks(c, PlayOn(c, s, faults))
  }

  /** The clean-up gets to output k and finds it unchanged, whatever it does with the outputs before. */
  lemma {:induction false} UndoReaches(c: Config, s: State, j: nat, k: nat) returns (faults: seq<bool>)
    requires InRange(c, s) && s.phase == Undoing(j) && j <= k < |s.created|
    requires forall i :: j <= i < k ==> s.created[i] != s.created[k]
    requires s.created[k].path in s.entries && s.entries[s.created[k].path] == s.created[k].inode
    ensures var t := PlayOn(c, s, faults);
      && t.phase == Removing(k) && t.created == s.created
      && t.created[k].path in t.entries && t.entries[t.created[k].path] == t.created[k].inode
    decreases k - j
  {
    var t := Next(c, s, false);
    if j == k {
      faults := [false];
      assert PlayOn(c, t, []) == t;
    } else if t.phase == Undoing(j + 1) {
      var rest := UndoReaches(c, t, j + 1, k);
      faults := [false] + rest;
    } else {
      var u := Next(c, t, false);
      var rest := UndoReaches(c, u, j + 1, k);
      faults := [false] + ([false] + rest);
      assert faults[1..][1..] == rest;
    }
  }

  /** A foreign inode recorded as created is removed if the next link fails. */
  lemma RecordedForeignIsRemoved(c: Config, s: State, k: nat, foreign: Inode) returns (faults: seq<bool>)
    requires Inv(c, s) && s.phase == Identifying(k) && k + 1 < |c.destinations| && !c.Own(foreign)
    ensures Breaks(c, PlayOn(c, Disturb(s, Put(c.destinations[k], foreign)), faults))
  {
    var touched := Disturb(s, Put(c.destinations[k], foreign));
    var recorded := Next(c, touched, false);
    var failing := Next(c, recorded, true);
    assert failing.phase == Undoing(0) && failing.created == s.created + [Created(c.destinations[k], foreign)];
    forall i | 0 <= i < k ensures failing.created[i] != failing.created[k] {
      assert failing.created[i] == Created(c.destinations[i], c.sources[i]);
      assert c.Own(c.sources[i]);
    }
    var rest := UndoReaches(c, failing, 0, k);
    faults := [false] + ([true] + rest);
    assert faults[1..][1..] == rest;
  }

  lemma {:induction false} PlayKeepsInv(c: Config, s: State, faults: seq<bool>)
    requires Inv(c, s)
    ensures Inv(c, PlayOn(c, s, faults))
    decreases faults
  {
    if faults != [] {
      NextKeepsInv(c, s, faults[0]);
      PlayKeepsInv(c, Next(c, s, faults[0]), faults[1..]);
    }
  }

  lemma InvDoesNotBreak(c: Config, s: State)
    requires Inv(c, s)
    ensures !Breaks(c, s)
  {
    if s.phase.Removing? {
      assert c.Own(c.sources[s.phase.k]);
    }
  }

  /** After a change by another process the publisher can, going on alone, come to remove a foreign entry or
      to fail in its clean-up exactly when the change is a harmful one. */
  lemma HarmExactly(c: Config, s: State, change: Change)
    requires Inv(c, s) && Foreign(c, change)
    ensures Harmful(c, s, change) <==> exists faults :: BreaksAfter(c, Disturb(s, change), faults)
  {
    if Harmful(c, s, change) {
      var faults := HarmfulBreaks(c, s, change);
      assert BreaksAfter(c, Disturb(s, change), faults);
    } else {
      DisturbKeepsInv(c, s, change);
      forall faults ensures !BreaksAfter(c, Disturb(s, change), faults) {
        PlayKeepsInv(c, Disturb(s, change), faults);
        InvDoesNotBreak(c, PlayOn(c, Disturb(s, change), faults));
      }
    }
  }

  lemma HarmfulBreaks(c: Config, s: State, change: Change) returns (faults: seq<bool>)
    requires Inv(c, s) && Foreign(c, change) && Harmful(c, s, change)
    ensures Breaks(c, PlayOn(c, Disturb(s, change), faults))
  {
    if s.phase.Identifying? {
      faults := RecordedForeignIsRemoved(c, s, s.phase.k, change.inode);
    } else if change.Put? {
      faults := [];
    } else {
      faults := [false];
      var t := Next(c, Disturb(s, change), false);
      assert PlayOn(c, t, []) == t;
    }
  }

  // Every harmful touch can happen: from any directory free of the destinations the publisher, undisturbed
  // so far, comes to each of the points.

  ghost predicate Clear(c: Config, s: State) {
    && Initial(c, s)
    && (forall k :: 0 <= k < |c.destinations| ==> c.destinations[k] !in s.entries)
    && NeverTwice(c.destinations)
  }

  lemma {:induction false} ChecksPass(c: Config, s: State, i: nat) returns (faults: seq<bool>)
    requires InRange(c, s) && s.phase == Checking(i)
    requires forall k :: 0 <= k < |c.destinations| ==> c.destinations[k] !in s.entries
    ensures PlayOn(c, s, faults) == s.(phase := Linking(0))
    decreases |c.destinations| - i
  {
    var t := Next(c, s, false);
    if i == |c.destinations| {
      faults := [false];
      assert PlayOn(c, t, []) == t;
    } else {
      var rest := ChecksPass(c, t, i + 1);
      faults := [false] + rest;
    }
  }

  /** All outputs before j are linked and recorded, the others are not there yet. */
  ghost predicate LinkedUpTo(c: Config, s: State, j: nat)
    requires c.Valid() && j <= |c.destinations|
  {
    && |s.created| == j
    && (forall i :: 0 <= i < j ==> s.created[i] == Created(c.destinations[i], c.sources[i]))
    && (forall i :: 0 <= i < j ==> c.destinations[i] in s.entries && s.entries[c.destinations[i]] == c.sources[i])
    && (forall i :: j <= i < |c.destinations| ==> c.destinations[i] !in s.entries)
    && NeverTwice(c.destinations)
  }

  lemma {:induction false} LinksGoThrough(c: Config, s: State, j: nat, k: nat) returns (faults: seq<bool>)
    requires InRange(c, s) && s.phase == Linking(j) && j <= k <= |c.destinations| && LinkedUpTo(c, s, j)
    ensures var t := PlayOn(c, s, faults); t.phase == Linking(k) && LinkedUpTo(c, t, k)
    decreases k - j
  {
    if j == k {
      faults := [];
    } else {
      var linked := Next(c, s, false);
      var recorded := Next(c, linked, false);
      var rest := LinksGoThrough(c, recorded, j + 1, k);
      faults := [false] + ([false] + rest);
      assert faults[1..][1..] == rest;
    }
  }

  lemma ReachLinking(c: Config, s: State, k: nat) returns (faults: seq<bool>)
    requires Clear(c, s) && k <= |c.destinations|
    ensures var t := PlayOn(c, s, faults); t.phase == Linking(k) && LinkedUpTo(c, t, k)
  {
    var checks := ChecksPass(c, s, 0);
    var links := LinksGoThrough(c, s.(phase := Linking(0)), 0, k);
    faults := checks + links;
    PlayAppend(c, s, checks, links);
  }

  /** Each output but the last can be met linked and not yet identified; replacing it there does harm. */
  lemma ReplacedBeforeIdentified(c: Config, s: State, k: nat, foreign: Inode)
      returns (before: seq<bool>, after: seq<bool>)
    requires Clear(c, s) && k + 1 < |c.destinations| && !c.Own(foreign)
    ensures PlayOn(c, s, before).phase == Identifying(k)
    ensures Breaks(c, PlayOn(c, Disturb(PlayOn(c, s, before), Put(c.destinations[k], foreign)), after))
  {
    var linking := ReachLinking(c, s, k);
    before := linking + [false];
    PlayAppend(c, s, linking, [false]);
    PlayOne(c, PlayOn(c, s, linking), false);
    InitialInv(c, s);
    PlayKeepsInv(c, s, before);
    after := RecordedForeignIsRemoved(c, PlayOn(c, s, before), k, foreign);
  }

  /** Each output but the last can be met just before its removal; replacing or removing it there does harm. */
  lemma TouchedBeforeRemoval(c: Config, s: State, k: nat, foreign: Inode) returns (before: seq<bool>)
    requires Clear(c, s) && k + 1 < |c.destinations| && !c.Own(foreign)
    ensures PlayOn(c, s, before).phase == Removing(k)
    ensures var t := PlayOn(c, s, before);
      && Breaks(c, Disturb(t, Put(c.destinations[k], foreign)))
      && Breaks(c, Next(c, Disturb(t, Remove(c.destinations[k])), false))
  {
    var linking := ReachLinking(c, s, k + 1);
    var linked := PlayOn(c, s, linking);
    var failing := Next(c, linked, true);
    var rest := UndoReaches(c, failing, 0, k);
    PlayOne(c, linked, true);
    PlayAppend(c, linked, [true], rest);
    before := linking + ([true] + rest);
    PlayAppend(c, s, linking, [true] + rest);
  }

  lemma PlayOne(c: Config, s: State, fault: bool)
    requires InRange(c, s)
    ensures PlayOn(c, s, [fault]) == Next(c, s, fault)
  {
    assert PlayOn(c, Next(c, s, fault), []) == Next(c, s, fault);
  }
}
