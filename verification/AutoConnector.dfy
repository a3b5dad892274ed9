/** The auto-connectors of several instances (CAutoConnector.cpp), with the
    named mutex and the shared memory of CSharedMem.cpp between them.

    Every access to shared memory is a step of its own, and the steps of the
    instances interleave in any order. */
module AutoConnector {
  type Window = nat
  const NULL: Window := 0

  /** Where an instance is. All but Idle and the first two hold the mutex. */
  datatype Position =
    // the constructor: slot and handle are still to be cleared, or the handle
    | Booting | Booted
    | Idle
    // Connect(): collecting windows; checking a window against slot j
    | Listing | Offered(window: Window, slot: nat)
    // choosing: checking the k-th window of the list against slot j
    | Selecting(k: nat, slot: nat) | Marking(k: nat) | Setting(k: nat)
    // Disconnect()
    | Clearing | Unmarking
    | Unlocking

  datatype Instance = Instance(position: Position, handle: Window, tlist: seq<Window>)

  /** The mutex with its owner, a slot per session id, and the instances. */
  datatype System = System(locked: bool, owner: nat, slots: seq<Window>, instances: seq<Instance>)

  predicate WellFormed(s: System) {
    |s.slots| == |s.instances|
  }

  function With(s: System, i: nat, x: Instance): (t: System)
    requires WellFormed(s) && i < |s.slots|
    ensures WellFormed(t)
  {
    s.(instances := s.instances[i := x])
  }

  function Goes(s: System, i: nat, position: Position): (t: System)
    requires WellFormed(s) && i < |s.slots|
    ensures WellFormed(t)
  {
    With(s, i, s.instances[i].(position := position))
  }

  // ---------- Steps ----------

  ghost predicate IdleStep(s: System, t: System, i: nat)
    requires WellFormed(s) && i < |s.slots|
  {
    // the mutex could not be grabbed
    || t == s
    || (!s.locked && t == With(s.(locked := true, owner := i), i, s.instances[i].(position := Listing, tlist := [])))
    || (!s.locked && t == Goes(s.(locked := true, owner := i), i, Clearing))
  }

  /** The enumeration offers another window, or ends. */
  ghost predicate ListingStep(s: System, t: System, i: nat)
    requires WellFormed(s) && i < |s.slots|
  {
    || (exists w: Window | w != NULL :: t == Goes(s, i, Offered(w, 0)))
    || t == Goes(s, i, if s.instances[i].tlist == [] then Unlocking else Selecting(0, 0))
  }

  /** One comparison of PokerWindowAttached(), for a window to be listed. */
  function OfferedStep(s: System, i: nat, w: Window, j: nat): System
    requires WellFormed(s) && i < |s.slots|
  {
    var x := s.instances[i];
    if j >= |s.slots| then With(s, i, x.(position := Listing, tlist := x.tlist + [w]))
    else if s.slots[j] == w then Goes(s, i, Listing)
    else Goes(s, i, Offered(w, j + 1))
  }

  /** One comparison of PokerWindowAttached(), for a window to be chosen. */
  function SelectingStep(s: System, i: nat, k: nat, j: nat): System
    requires WellFormed(s) && i < |s.slots|
  {
    var x := s.instances[i];
    if k >= |x.tlist| then Goes(s, i, Unlocking)
    else if j >= |s.slots| then Goes(s, i, Marking(k))
    else if s.slots[j] == x.tlist[k] then Goes(s, i, Selecting(k + 1, 0))
    else Goes(s, i, Selecting(k, j + 1))
  }

  ghost predicate Step(s: System, t: System, i: nat)
    requires WellFormed(s) && i < |s.slots|
  {
    var x := s.instances[i];
    match x.position
    case Booting => t == Goes(s.(slots := s.slots[i := NULL]), i, Booted)
    case Booted => t == With(s, i, x.(position := Idle, handle := NULL))
    case Idle => IdleStep(s, t, i)
    case Listing => ListingStep(s, t, i)
    case Offered(w, j) => t == OfferedStep(s, i, w, j)
    case Selecting(k, j) => t == SelectingStep(s, i, k, j)
    case Marking(k) => k < |x.tlist| && t == Goes(s.(slots := s.slots[i := x.tlist[k]]), i, Setting(k))
    case Setting(k) => k < |x.tlist| && t == With(s, i, x.(position := Unlocking, handle := x.tlist[k]))
    case Clearing => t == With(s, i, x.(position := Unmarking, handle := NULL))
    case Unmarking => t == Goes(s.(slots := s.slots[i := NULL]), i, Unlocking)
    case Unlocking => t == Goes(s.(locked := false), i, Idle)
  }

  /** All instances are about to be constructed. Their slots may hold what an
      earlier instance with the same session id has left behind. */
  ghost predicate Init(s: System) {
    && WellFormed(s) && !s.locked
    && forall i: nat | i < |s.instances| :: s.instances[i].position.Booting?
  }

  ghost predicate Run(states: seq<System>) {
    && 0 < |states| && Init(states[0])
    && (forall n: nat | n < |states| :: WellFormed(states[n]))
    && (forall n: nat | n + 1 < |states| :: Next(states[n], states[n + 1]))
  }

  ghost predicate Next(s: System, t: System)
    requires WellFormed(s)
  {
    exists i: nat | i < |s.slots| :: Step(s, t, i)
  }

  // ---------- The invariant ----------

  predicate Live(s: System, i: nat)
    requires i < |s.instances|
  {
    !s.instances[i].position.Booting? && !s.instances[i].position.Booted?
  }

  predicate Inside(p: Position) {
    !p.Booting? && !p.Booted? && !p.Idle?
  }

  /** A window that could be attached: it is real, and no slot holds it. */
  predicate Free(s: System, w: Window) {
    w != NULL && w !in s.slots
  }

  /** What holds for one instance alone. */
  ghost predicate Sound(s: System, i: nat)
    requires WellFormed(s) && i < |s.slots|
  {
    var x := s.instances[i];
    && (Inside(x.position) <==> s.locked && s.owner == i)
    && match x.position
       case Booting => true
       case Booted => s.slots[i] == NULL
       case Idle | Clearing | Unlocking => x.handle == s.slots[i]
       case Listing => x.handle == s.slots[i] && forall w | w in x.tlist :: Free(s, w)
       case Offered(w, j) =>
         && x.handle == s.slots[i] && (forall w | w in x.tlist :: Free(s, w))
         && w != NULL && j <= |s.slots| && w !in s.slots[..j]
       case Selecting(k, j) =>
         && x.handle == s.slots[i] && (forall w | w in x.tlist :: Free(s, w))
         && k == 0 < |x.tlist| && j <= |s.slots|
       case Marking(k) =>
         && x.handle == s.slots[i] && k == 0 < |x.tlist| && Free(s, x.tlist[0])
       case Setting(k) => k == 0 < |x.tlist| && x.tlist[0] == s.slots[i]
       case Unmarking => x.handle == NULL
  }

  /** No other slot holds what a started instance is or claims to be attached to. */
  ghost predicate Apart(s: System, i: nat, j: nat)
    requires WellFormed(s) && i < |s.slots| && j < |s.slots|
  {
    i != j && Live(s, i) ==>
      && (s.slots[i] != NULL ==> s.slots[i] != s.slots[j])
      && (s.instances[i].handle != NULL ==> s.instances[i].handle != s.slots[j])
  }

  ghost predicate Inv(s: System) {
    && WellFormed(s)
    && (s.locked ==> s.owner < |s.slots|)
    && (forall i: nat | i < |s.slots| :: Sound(s, i))
    && (forall i: nat, j: nat | i < |s.slots| && j < |s.slots| :: Apart(s, i, j))
  }

  /** What another instance needs from a step: its own part is unchanged, the mutex is
      not taken from it, and no slot gets a window that some list still has. */
  lemma OthersStaySound(s: System, t: System, i: nat, m: nat)
    requires Inv(s) && i < |s.slots| && m < |s.slots| && m != i && Step(s, t, i)
    ensures WellFormed(t) && |t.slots| == |s.slots| && Sound(t, m)
  {
    assert Sound(s, i) && Sound(s, m);
  }

  lemma ListerStaysSound(s: System, t: System, i: nat)
    requires Inv(s) && i < |s.slots| && Step(s, t, i)
    requires s.instances[i].position.Listing? || s.instances[i].position.Offered?
    ensures WellFormed(t) && |t.slots| == |s.slots| && Sound(t, i)
  {
    assert Sound(s, i);
    assert s.slots[..|s.slots|] == s.slots;
  }

  /** The window at the head of the list is still free when it comes to choosing:
      the first one is always taken. */
  lemma ChooserStaysSound(s: System, t: System, i: nat)
    requires Inv(s) && i < |s.slots| && Step(s, t, i)
    requires s.instances[i].position.Selecting?
    ensures WellFormed(t) && |t.slots| == |s.slots| && Sound(t, i)
  {
    assert Sound(s, i);
    assert Free(s, s.instances[i].tlist[0]);
  }

  lemma MoverStaysSound(s: System, t: System, i: nat)
    requires Inv(s) && i < |s.slots| && Step(s, t, i)
    ensures WellFormed(t) && |t.slots| == |s.slots| && Sound(t, i)
  {
    if s.instances[i].position.Listing? || s.instances[i].position.Offered? {
      hide Sound, Step, Apart;
      ListerStaysSound(s, t, i);
    } else if s.instances[i].position.Selecting? {
      hide Sound, Step, Apart;
      ChooserStaysSound(s, t, i);
    } else {
      assert Sound(s, i);
    }
  }

  lemma OwnerExists(s: System, t: System, i: nat)
    requires Inv(s) && i < |s.slots| && Step(s, t, i)
    ensures t.locked ==> t.owner < |t.slots|
  {
    hide Sound, Apart;
  }

  lemma StaysApart(s: System, t: System, i: nat, m: nat, j: nat)
    requires Inv(s) && i < |s.slots| && m < |s.slots| && j < |s.slots| && Step(s, t, i)
    requires WellFormed(t) && |t.slots| == |s.slots|
    ensures Apart(t, m, j)
  {
    assert Sound(s, i) && Sound(s, m) && Apart(s, m, j);
  }

  /** Every step of every instance keeps the invariant. */
  lemma StepKeepsInv(s: System, t: System, i: nat)
    requires Inv(s) && i < |s.slots| && Step(s, t, i)
    ensures Inv(t)
  {
    hide Step, Sound, Apart;
    MoverStaysSound(s, t, i);
    OwnerExists(s, t, i);
    forall m: nat | m < |t.slots| ensures Sound(t, m) {
      if m != i {
        OthersStaySound(s, t, i, m);
      }
    }
    forall m: nat, j: nat | m < |t.slots| && j < |t.slots| ensures Apart(t, m, j) {
      StaysApart(s, t, i, m, j);
    }
  }

  lemma InitIsInv(s: System)
    requires Init(s)
    ensures Inv(s)
  {}

  lemma {:induction false} RunKeepsInv(states: seq<System>, n: nat)
    requires Run(states) && n < |states|
    ensures Inv(states[n]) && |states[n].slots| == |states[0].slots|
  {
    hide Inv, Init, Step;
    if n == 0 {
      InitIsInv(states[0]);
    } else {
      RunKeepsInv(states, n - 1);
      assert Next(states[n - 1], states[n - 1 + 1]);
      var i: nat :| i < |states[n - 1].slots| && Step(states[n - 1], states[n], i);
      StepKeepsInv(states[n - 1], states[n], i);
      StepKeepsSize(states[n - 1], states[n], i);
    }
  }

  lemma StepKeepsSize(s: System, t: System, i: nat)
    requires WellFormed(s) && i < |s.slots| && Step(s, t, i)
    ensures |t.slots| == |s.slots|
  {}

  // ---------- Safety ----------

  /** Instances that have been constructed are never attached to the same window,
      whatever the interleaving. */
  lemma NoWindowIsServedTwice(states: seq<System>, n: nat, i: nat, j: nat)
    requires Run(states) && n < |states| && i < |states[n].instances| && j < |states[n].instances| && i != j
    requires Live(states[n], i) && Live(states[n], j)
    ensures var s := states[n];
            s.instances[i].handle != NULL ==> s.instances[i].handle != s.instances[j].handle
  {
    hide Run, Step;
    RunKeepsInv(states, n);
    var s := states[n];
    assert Sound(s, i) && Sound(s, j) && Apart(s, i, j) && Apart(s, j, i);
    // at most one of the two holds the mutex, so the other one's slot is its handle
    assert !Inside(s.instances[i].position) || !Inside(s.instances[j].position);
  }

  /** Outside the mutex an instance's own handle agrees with its shared slot, and
      only one instance at a time is inside. */
  lemma HandleAgreesWithSlot(states: seq<System>, n: nat, i: nat)
    requires Run(states) && n < |states| && i < |states[n].instances|
    ensures var s := states[n];
            && (s.instances[i].position.Idle? ==> s.instances[i].handle == s.slots[i])
            && (forall j: nat
                  | j < |s.instances| && Inside(s.instances[i].position) && Inside(s.instances[j].position) ::
                  i == j)
  {
    hide Run, Step;
    RunKeepsInv(states, n);
    var s := states[n];
    assert Sound(s, i);
    forall j: nat | j < |s.instances| && Inside(s.instances[i].position) && Inside(s.instances[j].position)
      ensures i == j
    {
      assert Sound(s, j);
    }
  }

  /** Once the list has a window, its first window is taken: the choice never
      finds that all tables are served already. */
  lemma FirstCandidateIsChosen(states: seq<System>, n: nat, i: nat)
    requires Run(states) && n < |states| && i < |states[n].instances|
    ensures var p := states[n].instances[i].position;
            && (p.Selecting? ==> p.k == 0 < |states[n].instances[i].tlist|)
            && (p.Marking? || p.Setting? ==> p.k == 0)
  {
    hide Run, Step;
    RunKeepsInv(states, n);
    assert Sound(states[n], i);
  }

  // ---------- What a whole Connect() achieves ----------

  /** Instance i is there in all states. */
  ghost predicate Fits(states: seq<System>, i: nat) {
    forall n: nat | n < |states| :: i < |states[n].slots| && i < |states[n].instances|
  }

  function At(states: seq<System>, i: nat, n: nat): Position
    requires n < |states| && i < |states[n].instances|
  {
    states[n].instances[i].position
  }

  /** With step p the enumeration offers a window to instance i. */
  ghost predicate Offers(states: seq<System>, i: nat, p: nat)
    requires Fits(states, i)
  {
    p + 1 < |states| && At(states, i, p).Listing? && At(states, i, p + 1).Offered?
  }

  /** With step n instance i compares a slot with the window, and the slot holds it. */
  ghost predicate Hit(states: seq<System>, i: nat, n: nat)
    requires Fits(states, i)
  {
    && n + 1 < |states| && At(states, i, n).Offered? && At(states, i, n + 1) != At(states, i, n)
    && At(states, i, n).slot < |states[n].slots| && states[n].slots[At(states, i, n).slot] == At(states, i, n).window
  }

  /** The window offered with step p is being checked up to state n. */
  ghost predicate Checking(states: seq<System>, i: nat, p: nat, n: nat)
    requires Fits(states, i) && n < |states|
  {
    forall m: nat | p < m <= n :: At(states, i, m).Offered?
  }

  /** Some slot held the window offered with step p when it was compared. */
  ghost predicate FoundServed(states: seq<System>, i: nat, p: nat)
    requires Fits(states, i)
  {
    exists n: nat | p < n < |states| :: Hit(states, i, n) && Checking(states, i, p, n)
  }

  /** All windows offered after step a and before step k were found served. */
  ghost predicate AllServed(states: seq<System>, i: nat, a: nat, k: nat)
    requires Fits(states, i)
  {
    forall q: nat | a < q < k && Offers(states, i, q) :: FoundServed(states, i, q)
  }

  /** The window w, offered with step p, is the first one that no slot held. */
  ghost predicate FirstUnserved(states: seq<System>, i: nat, a: nat, p: nat, w: Window)
    requires Fits(states, i)
  {
    && a < p && Offers(states, i, p) && At(states, i, p + 1).window == w
    && !FoundServed(states, i, p) && AllServed(states, i, a, p)
  }

  /** Connect() of instance i, from the step a that takes the mutex up to state b, where
      it is about to be released. Other instances may step in between. */
  ghost predicate Connects(states: seq<System>, i: nat, a: nat, b: nat) {
    && Fits(states, i) && a + 1 <= b < |states| && At(states, i, a).Idle? && At(states, i, a + 1).Listing?
    && At(states, i, b).Unlocking? && forall m: nat | a < m <= b :: Inside(At(states, i, m))
  }

  /** Handle and slot are both this window. */
  predicate Attached(s: System, i: nat, w: Window)
    requires i < |s.slots| && i < |s.instances|
  {
    s.instances[i].handle == w && s.slots[i] == w
  }

  /** What the list of windows tells about the offers before step k. */
  ghost predicate ListTells(states: seq<System>, i: nat, a: nat, k: nat, tlist: seq<Window>)
    requires Fits(states, i)
  {
    if tlist == [] then AllServed(states, i, a, k)
    else exists p: nat | p < k :: FirstUnserved(states, i, a, p, tlist[0])
  }

  /** The check of window w that began with step p has not found it in any slot so far. */
  ghost predicate NotFoundYet(states: seq<System>, i: nat, p: nat, n: nat, w: Window)
    requires Fits(states, i) && n < |states|
  {
    && p < n && Offers(states, i, p) && At(states, i, p + 1).window == w && Checking(states, i, p, n)
    && forall m: nat | p < m < n :: !Hit(states, i, m)
  }

  ghost predicate Progress(states: seq<System>, i: nat, a: nat, n: nat)
    requires Fits(states, i) && a < n < |states|
  {
    var x := states[n].instances[i];
    var stays := Attached(states[n], i, states[a].instances[i].handle);
    match x.position
    case Listing => stays && ListTells(states, i, a, n, x.tlist)
    case Offered(w, _) =>
      stays && exists p: nat | a < p < n :: NotFoundYet(states, i, p, n, w) && ListTells(states, i, a, p, x.tlist)
    case Selecting(_, _) => stays && x.tlist != [] && ListTells(states, i, a, n, x.tlist)
    case Marking(_) => stays && x.tlist != [] && ListTells(states, i, a, n, x.tlist)
    case Setting(_) => x.tlist != [] && states[n].slots[i] == x.tlist[0] && ListTells(states, i, a, n, x.tlist)
    case Unlocking =>
      && ListTells(states, i, a, n, x.tlist)
      && if x.tlist == [] then stays else Attached(states[n], i, x.tlist[0])
    case _ => false
  }

  /** Another instance's step leaves an instance and its slot alone. */
  lemma OthersLeaveAlone(s: System, t: System, i: nat, m: nat)
    requires WellFormed(s) && m < |s.slots| && i < |s.slots| && m != i && Step(s, t, m)
    ensures WellFormed(t) && |t.slots| == |s.slots|
    ensures t.instances[i] == s.instances[i] && t.slots[i] == s.slots[i]
  {}

  lemma MoreOffers(states: seq<System>, i: nat, a: nat, k: nat, l: nat, tlist: seq<Window>)
    requires Fits(states, i) && k <= l && ListTells(states, i, a, k, tlist)
    requires forall q: nat | k <= q < l :: !Offers(states, i, q)
    ensures ListTells(states, i, a, l, tlist)
  {
    hide Offers, FoundServed, FirstUnserved;
  }

  /** While the instance itself does nothing, its progress stays as it is. */
  lemma ProgressWhileWaiting(states: seq<System>, i: nat, a: nat, n: nat)
    requires Fits(states, i) && a < n && n + 1 < |states| && Progress(states, i, a, n)
    requires states[n + 1].instances[i] == states[n].instances[i] && states[n + 1].slots[i] == states[n].slots[i]
    ensures Progress(states, i, a, n + 1)
  {
    hide FoundServed, FirstUnserved, AllServed, ListTells;
    var x := states[n].instances[i];
    if x.position.Offered? {
      var w := x.position.window;
      var p: nat :| a < p < n && NotFoundYet(states, i, p, n, w) && ListTells(states, i, a, p, x.tlist);
      assert NotFoundYet(states, i, p, n + 1, w);
    } else {
      MoreOffers(states, i, a, n, n + 1, x.tlist);
    }
  }

  lemma ProgressOfListing(states: seq<System>, i: nat, a: nat, n: nat)
    requires Fits(states, i) && a < n && n + 1 < |states| && Progress(states, i, a, n)
    requires WellFormed(states[n]) && At(states, i, n).Listing? && ListingStep(states[n], states[n + 1], i)
    ensures Progress(states, i, a, n + 1)
  {
    hide FoundServed, FirstUnserved, AllServed, ListTells;
    var x, y := states[n].instances[i], states[n + 1].instances[i];
    if y.position.Offered? {
      assert NotFoundYet(states, i, n, n + 1, y.position.window);
    } else {
      MoreOffers(states, i, a, n, n + 1, x.tlist);
    }
  }

  /** A check that has ended without a hit has found the window nowhere. */
  lemma NotServed(states: seq<System>, i: nat, p: nat, n: nat, w: Window)
    requires Fits(states, i) && n + 1 < |states| && NotFoundYet(states, i, p, n, w)
    requires !Hit(states, i, n) && !At(states, i, n + 1).Offered?
    ensures !FoundServed(states, i, p)
  {
    hide Hit, Offers;
    forall m: nat | p < m < |states| && Checking(states, i, p, m) ensures !Hit(states, i, m) {
      assert m <= n;
    }
  }

  lemma NoOffersWhileChecking(states: seq<System>, i: nat, p: nat, n: nat)
    requires Fits(states, i) && n < |states| && Checking(states, i, p, n)
    ensures forall q: nat | p < q <= n :: !Offers(states, i, q)
  {
  }

  lemma ProgressOfOffered(states: seq<System>, i: nat, a: nat, n: nat)
    requires Fits(states, i) && a < n && n + 1 < |states| && Progress(states, i, a, n)
    requires WellFormed(states[n]) && At(states, i, n).Offered?
    requires states[n + 1] == OfferedStep(states[n], i, At(states, i, n).window, At(states, i, n).slot)
    ensures Progress(states, i, a, n + 1)
  {
    hide FoundServed, FirstUnserved, AllServed, ListTells, Offers;
    var x, y := states[n].instances[i], states[n + 1].instances[i];
    var w, j := x.position.window, x.position.slot;
    var p: nat :| a < p < n && NotFoundYet(states, i, p, n, w) && ListTells(states, i, a, p, x.tlist);
    NoOffersWhileChecking(states, i, p, n);
    if y.position.Offered? {
      assert !Hit(states, i, n);
      assert NotFoundYet(states, i, p, n + 1, w);
    } else if j >= |states[n].slots| {
      NotServed(states, i, p, n, w);
      ListWithOneMore(states, i, a, p, n + 1, x.tlist, w);
    } else {
      assert Hit(states, i, n);
      ListWithOneServed(states, i, a, p, n, x.tlist);
    }
  }

  lemma ListWithOneMore(states: seq<System>, i: nat, a: nat, p: nat, k: nat, tlist: seq<Window>, w: Window)
    requires Fits(states, i) && a < p < k && ListTells(states, i, a, p, tlist)
    requires Offers(states, i, p) && At(states, i, p + 1).window == w && !FoundServed(states, i, p)
    ensures ListTells(states, i, a, k, tlist + [w])
  {
    hide FoundServed, AllServed, Offers;
    if tlist == [] {
      assert FirstUnserved(states, i, a, p, (tlist + [w])[0]);
    } else {
      var q: nat :| q < p && FirstUnserved(states, i, a, q, tlist[0]);
      assert FirstUnserved(states, i, a, q, (tlist + [w])[0]);
    }
  }

  lemma ListWithOneServed(states: seq<System>, i: nat, a: nat, p: nat, n: nat, tlist: seq<Window>)
    requires Fits(states, i) && a < p < n && n + 1 < |states| && ListTells(states, i, a, p, tlist)
    requires Hit(states, i, n) && Checking(states, i, p, n)
    ensures ListTells(states, i, a, n + 1, tlist)
  {
    hide Hit, FirstUnserved, Offers;
    NoOffersWhileChecking(states, i, p, n);
    assert FoundServed(states, i, p);
  }

  lemma ProgressOfChoosing(states: seq<System>, i: nat, a: nat, n: nat)
    requires Fits(states, i) && a < n && n + 1 < |states| && Progress(states, i, a, n)
    requires Inv(states[n]) && Inv(states[n + 1]) && Step(states[n], states[n + 1], i)
    requires !At(states, i, n).Listing? && !At(states, i, n).Offered? && Inside(At(states, i, n + 1))
    ensures Progress(states, i, a, n + 1)
  {
    hide FoundServed, FirstUnserved, AllServed, ListTells, Apart;
    var x := states[n].instances[i];
    assert Sound(states[n], i) && Sound(states[n + 1], i);
    MoreOffers(states, i, a, n, n + 1, x.tlist);
  }

  /** One step of anybody within a Connect(). */
  lemma ProgressStep(states: seq<System>, i: nat, a: nat, n: nat)
    requires Run(states) && Fits(states, i) && a < n && n + 1 < |states| && Progress(states, i, a, n)
    requires Inside(At(states, i, n + 1))
    ensures Progress(states, i, a, n + 1)
  {
    hide Progress, Inv, Init;
    RunKeepsInv(states, n);
    RunKeepsInv(states, n + 1);
    assert Next(states[n], states[n + 1]);
    var m: nat :| m < |states[n].slots| && Step(states[n], states[n + 1], m);
    if m != i {
      OthersLeaveAlone(states[n], states[n + 1], i, m);
      ProgressWhileWaiting(states, i, a, n);
    } else if At(states, i, n).Listing? {
      ProgressOfListing(states, i, a, n);
    } else if At(states, i, n).Offered? {
      ProgressOfOffered(states, i, a, n);
    } else {
      ProgressOfChoosing(states, i, a, n);
    }
  }

  lemma ConnectStarts(states: seq<System>, i: nat, a: nat)
    requires Run(states) && Fits(states, i) && a + 1 < |states|
    requires At(states, i, a).Idle? && At(states, i, a + 1).Listing?
    ensures Progress(states, i, a, a + 1) && Attached(states[a], i, states[a].instances[i].handle)
  {
    hide Init, Apart, FoundServed;
    RunKeepsInv(states, a);
    assert Sound(states[a], i);
    assert Next(states[a], states[a + 1]);
    var m: nat :| m < |states[a].slots| && Step(states[a], states[a + 1], m);
    if m != i {
      OthersLeaveAlone(states[a], states[a + 1], i, m);
    }
  }

  lemma {:induction false} ConnectProgresses(states: seq<System>, i: nat, a: nat, n: nat)
    requires Run(states) && Fits(states, i) && a < n < |states|
    requires At(states, i, a).Idle? && At(states, i, a + 1).Listing?
    requires forall m: nat | a < m <= n :: Inside(At(states, i, m))
    ensures Progress(states, i, a, n)
  {
    hide Progress, Run;
    if n == a + 1 {
      ConnectStarts(states, i, a);
    } else {
      ConnectProgresses(states, i, a, n - 1);
      ProgressStep(states, i, a, n - 1);
    }
  }

  /** A whole Connect(): whatever other instances do in between, the instance ends attached
      to the first offered window that no slot held when it was compared, and stays as it
      was exactly if there was none. */
  lemma ConnectAttachesFirstUnserved(states: seq<System>, i: nat, a: nat, b: nat)
    requires Run(states) && Connects(states, i, a, b)
    ensures forall p: nat, w: Window | p < b && FirstUnserved(states, i, a, p, w) :: Attached(states[b], i, w)
    ensures AllServed(states, i, a, b) ==> Attached(states[b], i, states[a].instances[i].handle)
    ensures AllServed(states, i, a, b) || exists p: nat, w: Window :: p < b && FirstUnserved(states, i, a, p, w)
  {
    hide Run, FoundServed;
    ConnectProgresses(states, i, a, b);
    var tlist := states[b].instances[i].tlist;
    forall p: nat, w: Window | p < b && FirstUnserved(states, i, a, p, w)
      ensures Attached(states[b], i, w)
    {
      FirstIsOne(states, i, a, b, p, w, tlist);
    }
  }

  /** There is only one first unserved window. */
  lemma FirstIsOne(states: seq<System>, i: nat, a: nat, b: nat, p: nat, w: Window, tlist: seq<Window>)
    requires Fits(states, i) && p < b && FirstUnserved(states, i, a, p, w) && ListTells(states, i, a, b, tlist)
    ensures tlist != [] && tlist[0] == w
  {
    hide FoundServed, Offers;
    if tlist != [] {
      var q: nat :| q < b && FirstUnserved(states, i, a, q, tlist[0]);
      assert p == q;
    }
  }

  /** Disconnect() of instance i, from the step a that takes the mutex up to state b. */
  ghost predicate Disconnects(states: seq<System>, i: nat, a: nat, b: nat) {
    && Fits(states, i) && a + 1 <= b < |states| && At(states, i, a).Idle? && At(states, i, a + 1).Clearing?
    && At(states, i, b).Unlocking? && forall m: nat | a < m <= b :: Inside(At(states, i, m))
  }

  ghost predicate Detaching(s: System, i: nat)
    requires i < |s.slots| && i < |s.instances|
  {
    match s.instances[i].position
    case Clearing => true
    case Unmarking => s.instances[i].handle == NULL
    case Unlocking => Attached(s, i, NULL)
    case _ => false
  }

  lemma DetachingStep(states: seq<System>, i: nat, n: nat)
    requires Run(states) && Fits(states, i) && n + 1 < |states| && Detaching(states[n], i)
    requires Inside(At(states, i, n + 1))
    ensures Detaching(states[n + 1], i)
  {
    hide Init;
    assert Next(states[n], states[n + 1]);
    var m: nat :| m < |states[n].slots| && Step(states[n], states[n + 1], m);
    if m != i {
      OthersLeaveAlone(states[n], states[n + 1], i, m);
    }
  }

  lemma {:induction false} DisconnectProgresses(states: seq<System>, i: nat, a: nat, n: nat)
    requires Run(states) && Fits(states, i) && a < n < |states| && At(states, i, a + 1).Clearing?
    requires forall m: nat | a < m <= n :: Inside(At(states, i, m))
    ensures Detaching(states[n], i)
  {
    hide Run;
    if n > a + 1 {
      DisconnectProgresses(states, i, a, n - 1);
      DetachingStep(states, i, n - 1);
    }
  }

  /** A whole Disconnect() leaves neither a handle nor a slot, whatever others do. */
  lemma DisconnectDetaches(states: seq<System>, i: nat, a: nat, b: nat)
    requires Run(states) && Disconnects(states, i, a, b)
    ensures Attached(states[b], i, NULL)
  {
    hide Run;
    DisconnectProgresses(states, i, a, b);
  }

  // ---------- Nobody is stuck ----------

  /** Whoever is not idle can go on. */
  lemma NobodyIsStuck(s: System, i: nat)
    requires Inv(s) && i < |s.slots| && !s.instances[i].position.Idle?
    ensures exists t: System :: Step(s, t, i) && t != s
  {
    assert Sound(s, i);
    var x := s.instances[i];
    var t := match x.position
      case Booting => Goes(s.(slots := s.slots[i := NULL]), i, Booted)
      case Booted => With(s, i, x.(position := Idle, handle := NULL))
      case Listing => Goes(s, i, if x.tlist == [] then Unlocking else Selecting(0, 0))
      case Offered(w, j) => OfferedStep(s, i, w, j)
      case Selecting(k, j) => SelectingStep(s, i, k, j)
      case Marking(k) => Goes(s.(slots := s.slots[i := x.tlist[k]]), i, Setting(k))
      case Setting(k) => With(s, i, x.(position := Unlocking, handle := x.tlist[k]))
      case Clearing => With(s, i, x.(position := Unmarking, handle := NULL))
      case Unmarking => Goes(s.(slots := s.slots[i := NULL]), i, Unlocking)
      case Unlocking => Goes(s.(locked := false), i, Idle);
    assert t.instances[i].position != x.position;
    assert Step(s, t, i);
  }

  /** Instance i takes k steps from s to t. */
  ghost predicate Reaches(s: System, t: System, i: nat, k: nat)
    decreases k
  {
    && WellFormed(s) && i < |s.slots|
    && if k == 0 then s == t else exists u: System :: Step(s, u, i) && Reaches(u, t, i, k - 1)
  }

  lemma {:induction false} OneMoreStep(s: System, u: System, t: System, i: nat, k: nat)
    requires Reaches(s, u, i, k) && WellFormed(u) && i < |u.slots| && Step(u, t, i) && WellFormed(t) && i < |t.slots|
    ensures Reaches(s, t, i, k + 1)
    decreases k
  {
    hide Step;
    if k == 0 {
      assert Reaches(t, t, i, 0);
    } else {
      var v: System :| Step(s, v, i) && Reaches(v, u, i, k - 1);
      OneMoreStep(v, u, t, i, k - 1);
    }
  }

  lemma {:induction false} CheckedAgainstAll(s: System, u: System, i: nat, k: nat, w: Window, j: nat)
    requires Reaches(s, u, i, k) && WellFormed(u) && i < |u.slots| && j <= |u.slots|
    requires u.instances[i].position == Offered(w, j) && w !in u.slots
    ensures Reaches(s, Goes(u, i, Offered(w, |u.slots|)), i, k + |u.slots| - j)
    decreases |u.slots| - j
  {
    hide Reaches;
    if j == |u.slots| {
      assert u.instances[i := u.instances[i]] == u.instances;
    } else {
      var v := Goes(u, i, Offered(w, j + 1));
      OneMoreStep(s, u, v, i, k);
      CheckedAgainstAll(s, v, i, k + 1, w, j + 1);
      assert Goes(v, i, Offered(w, |u.slots|)) == Goes(u, i, Offered(w, |u.slots|));
    }
  }

  lemma {:induction false} ChosenAgainstAll(s: System, u: System, i: nat, k: nat, j: nat)
    requires Reaches(s, u, i, k) && WellFormed(u) && i < |u.slots| && j <= |u.slots|
    requires u.instances[i].position == Selecting(0, j) && u.instances[i].tlist != []
    requires u.instances[i].tlist[0] !in u.slots
    ensures Reaches(s, Goes(u, i, Selecting(0, |u.slots|)), i, k + |u.slots| - j)
    decreases |u.slots| - j
  {
    hide Reaches;
    if j == |u.slots| {
      assert u.instances[i := u.instances[i]] == u.instances;
    } else {
      var v := Goes(u, i, Selecting(0, j + 1));
      OneMoreStep(s, u, v, i, k);
      ChosenAgainstAll(s, v, i, k + 1, j + 1);
      assert Goes(v, i, Selecting(0, |u.slots|)) == Goes(u, i, Selecting(0, |u.slots|));
    }
  }

  lemma FreeWindowIsListed(s: System, i: nat, w: Window)
    requires Inv(s) && i < |s.slots| && s.instances[i].position.Idle? && !s.locked && Free(s, w)
    ensures var x := s.instances[i].(position := Selecting(0, 0), tlist := [w]);
            var u := With(s.(locked := true, owner := i), i, x);
            Reaches(s, u, i, |s.slots| + 4)
  {
    hide Reaches, Sound, Apart;
    var n := |s.slots|;
    var x := s.instances[i];
    var locked := s.(locked := true, owner := i);
    var s1 := With(locked, i, x.(position := Listing, tlist := []));
    var s2 := Goes(s1, i, Offered(w, 0));
    var s3 := Goes(s2, i, Offered(w, n));
    var s4 := With(s3, i, s3.instances[i].(position := Listing, tlist := [w]));
    var s5 := Goes(s4, i, Selecting(0, 0));
    NoStep(s, i);
    OneMoreStep(s, s, s1, i, 0);
    assert ListingStep(s1, s2, i);
    OneMoreStep(s, s1, s2, i, 1);
    CheckedAgainstAll(s, s2, i, 2, w, 0);
    assert s3.instances[i].tlist + [w] == [w];
    OneMoreStep(s, s3, s4, i, n + 2);
    OneMoreStep(s, s4, s5, i, n + 3);
    assert s5 == With(locked, i, x.(position := Selecting(0, 0), tlist := [w]));
  }

  lemma NoStep(s: System, i: nat)
    requires WellFormed(s) && i < |s.slots|
    ensures Reaches(s, s, i, 0)
  {}

  /** A free window can be attached: an idle instance that gets the mutex and is offered
      the window needs 2 n + 8 steps of its own with n slots. */
  lemma FreeWindowCanBeAttached(s: System, i: nat, w: Window)
    requires Inv(s) && i < |s.slots| && s.instances[i].position.Idle? && !s.locked && Free(s, w)
    ensures exists t: System ::
              && Reaches(s, t, i, 2 * |s.slots| + 8) && WellFormed(t) && |t.slots| == |s.slots|
              && t.instances[i].position.Idle? && !t.locked && Attached(t, i, w)
  {
    hide Reaches, Sound, Apart;
    var n := |s.slots|;
    FreeWindowIsListed(s, i, w);
    var s5 := With(s.(locked := true, owner := i), i, s.instances[i].(position := Selecting(0, 0), tlist := [w]));
    var s6 := Goes(s5, i, Selecting(0, n));
    var s7 := Goes(s6, i, Marking(0));
    var s8 := Goes(s7.(slots := s7.slots[i := w]), i, Setting(0));
    var s9 := With(s8, i, s8.instances[i].(position := Unlocking, handle := w));
    var t := Goes(s9.(locked := false), i, Idle);
    ChosenAgainstAll(s, s5, i, n + 4, 0);
    OneMoreStep(s, s6, s7, i, 2 * n + 4);
    OneMoreStep(s, s7, s8, i, 2 * n + 5);
    OneMoreStep(s, s8, s9, i, 2 * n + 6);
    OneMoreStep(s, s9, t, i, 2 * n + 7);
  }
}
