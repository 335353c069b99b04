/** The accepted-connection cap (internal/netutil/limitlistener.go): a counting semaphore
    shared by concurrent Accept calls, connection Closes and the listener's Close.

    A step is one atomic action of one goroutine. The wrapped listener and connections are
    the environment: whether an inner Accept yields a connection or an error is part of the
    step. */
module LimitListener {

  type Id = nat

  /** Where one Accept call stands. */
  datatype Acceptor = Acquiring | InnerAccept(acquired: bool) | Releasing

  /** Where one handed-out connection stands: sync.Once lets exactly one Close release. */
  datatype Conn = Open | Closing | Released

  datatype Listener = Listener(
    cap: nat,
    slots: nat,                    // tokens in the semaphore channel
    innerClosed: bool,             // the wrapped listener was closed
    done: bool,                    // the done channel was closed
    accepts: map<Id, Acceptor>,    // Accept calls in progress
    conns: map<Id, Conn>)          // connections handed out

  datatype Step =
    | CallAccept(a: Id)
    | Acquire(a: Id)               // the select takes the send case
    | AcquireRefused(a: Id)        // the select takes the done case
    | InnerYields(a: Id, c: Id)    // the inner Accept returns a connection
    | InnerFails(a: Id)            // the inner Accept returns an error
    | ReleaseAfterError(a: Id)
    | CloseConn(c: Id)             // a first Close enters releaseOnce
    | CloseConnAgain(c: Id)        // any later Close
    | ReleaseConn(c: Id)
    | CloseInner
    | CloseDone

  predicate Enabled(l: Listener, s: Step) {
    match s
    case CallAccept(a) => a !in l.accepts
    case Acquire(a) => a in l.accepts && l.accepts[a] == Acquiring && l.slots < l.cap
    case AcquireRefused(a) => a in l.accepts && l.accepts[a] == Acquiring && l.done
    case InnerYields(a, c) => a in l.accepts && l.accepts[a].InnerAccept? && c !in l.conns
    case InnerFails(a) => a in l.accepts && l.accepts[a].InnerAccept?
    case ReleaseAfterError(a) => a in l.accepts && l.accepts[a] == Releasing && l.slots > 0
    case CloseConn(c) => c in l.conns && l.conns[c] == Open
    case CloseConnAgain(c) => c in l.conns && l.conns[c] != Open
    case ReleaseConn(c) => c in l.conns && l.conns[c] == Closing && l.slots > 0
    case CloseInner => true
    case CloseDone => l.innerClosed
  }

  function Next(l: Listener, s: Step): Listener
    requires Enabled(l, s)
  {
    match s
    case CallAccept(a) => l.(accepts := l.accepts[a := Acquiring])
    case Acquire(a) => l.(slots := l.slots + 1, accepts := l.accepts[a := InnerAccept(true)])
    case AcquireRefused(a) => l.(accepts := l.accepts[a := InnerAccept(false)])
    case InnerYields(a, c) => l.(accepts := l.accepts - {a}, conns := l.conns[c := Open])
    case InnerFails(a) =>
      if l.accepts[a].acquired then l.(accepts := l.accepts[a := Releasing]) else l.(accepts := l.accepts - {a})
    case ReleaseAfterError(a) => l.(slots := l.slots - 1, accepts := l.accepts - {a})
    case CloseConn(c) => l.(conns := l.conns[c := Closing])
    case CloseConnAgain(_) => l
    case ReleaseConn(c) => l.(slots := l.slots - 1, conns := l.conns[c := Released])
    case CloseInner => l.(innerClosed := true)
    case CloseDone => l.(done := true)
  }

  /** What the environment owes: once it is closed, the wrapped listener yields no connection
      to a call that took no slot. */
  predicate Honest(l: Listener, s: Step)
    requires Enabled(l, s)
  {
    s.InnerYields? && l.innerClosed ==> l.accepts[s.a].acquired
  }

  /** The accepts in progress that hold a slot. */
  function Holding(l: Listener): set<Id> {
    set a | a in l.accepts && (l.accepts[a] == InnerAccept(true) || l.accepts[a] == Releasing)
  }

  /** The connections that have not given their slot back. */
  function Unreleased(l: Listener): set<Id> {
    set c | c in l.conns && l.conns[c] != Released
  }

  /** Every occupied slot has exactly one owner. */
  predicate Inv(l: Listener) {
    && l.slots == |Holding(l)| + |Unreleased(l)| <= l.cap
    && (l.done ==> l.innerClosed)
    && (forall a :: a in l.accepts && l.accepts[a] == InnerAccept(false) ==> l.done)
  }

  function Fresh(cap: nat): Listener {
    Listener(cap, 0, false, false, map[], map[])
  }

  lemma FreshInv(cap: nat)
    ensures Inv(Fresh(cap))
  {
    assert Holding(Fresh(cap)) == {} && Unreleased(Fresh(cap)) == {};
  }

  lemma HoldingAfter(l: Listener, s: Step)
    requires Enabled(l, s)
    ensures Holding(Next(l, s)) ==
            match s
            case Acquire(a) => Holding(l) + {a}
            case InnerYields(a, _) => Holding(l) - {a}
            case ReleaseAfterError(a) => Holding(l) - {a}
            case _ => Holding(l)
  {
  }

  lemma UnreleasedAfter(l: Listener, s: Step)
    requires Enabled(l, s)
    ensures Unreleased(Next(l, s)) ==
            match s
            case InnerYields(_, c) => Unreleased(l) + {c}
            case ReleaseConn(c) => Unreleased(l) - {c}
            case _ => Unreleased(l)
  {
  }

  /** The slot count is kept by a step exactly if the step is not an inner Accept that
      yields a connection to a call that never took a slot. */
  lemma StepKeepsTheCountIff(l: Listener, s: Step)
    requires Inv(l) && Enabled(l, s)
    ensures Inv(Next(l, s)) <==> !(s.InnerYields? && !l.accepts[s.a].acquired)
  {
    hide Holding, Unreleased;
    HoldingAfter(l, s);
    UnreleasedAfter(l, s);
    Members(l, s);
  }

  lemma Members(l: Listener, s: Step)
    requires Enabled(l, s)
    ensures match s
            case Acquire(a) => a !in Holding(l)
            case InnerYields(a, c) => (a in Holding(l) <==> l.accepts[a].acquired) && c !in Unreleased(l)
            case ReleaseAfterError(a) => a in Holding(l)
            case ReleaseConn(c) => c in Unreleased(l)
            case _ => true
  {
  }

  predicate Runs(l: Listener, steps: seq<Step>)
    decreases |steps|
  {
    steps == [] || (Enabled(l, steps[0]) && Honest(l, steps[0]) && Runs(Next(l, steps[0]), steps[1..]))
  }

  function After(l: Listener, steps: seq<Step>): Listener
    requires Runs(l, steps)
    decreases |steps|
  {
    if steps == [] then l else After(Next(l, steps[0]), steps[1..])
  }

  lemma {:induction false} RunsKeepTheInvariant(l: Listener, steps: seq<Step>)
    requires Inv(l) && Runs(l, steps)
    ensures Inv(After(l, steps)) && After(l, steps).cap == l.cap
    decreases |steps|
  {
    hide Holding, Unreleased;
    if steps != [] {
      StepKeepsTheCountIff(l, steps[0]);
      RunsKeepTheInvariant(Next(l, steps[0]), steps[1..]);
    }
  }

  function OpenConns(l: Listener): set<Id> {
    set c | c in l.conns && l.conns[c] == Open
  }

  /** Whatever the interleaving of Accepts, repeated connection Closes and the listener's
      Close: the occupied slots are the accepts that acquired plus the connections not yet
      released, no more connections are open than the cap allows, and a release always
      finds a token to take. */
  lemma CapHoldsOverEveryRun(cap: nat, steps: seq<Step>)
    requires Runs(Fresh(cap), steps)
    ensures var l := After(Fresh(cap), steps);
            && l.slots == |Holding(l)| + |Unreleased(l)|
            && |OpenConns(l)| <= cap
            && (forall a :: a in l.accepts && l.accepts[a] == Releasing ==> Enabled(l, ReleaseAfterError(a)))
            && (forall c :: c in l.conns && l.conns[c] == Closing ==> Enabled(l, ReleaseConn(c)))
  {
    FreshInv(cap);
    RunsKeepTheInvariant(Fresh(cap), steps);
    var l := After(Fresh(cap), steps);
    assert OpenConns(l) <= Unreleased(l);
    SubsetIsNoLarger(OpenConns(l), Unreleased(l));
    forall a | a in l.accepts && l.accepts[a] == Releasing ensures l.slots > 0 { assert a in Holding(l); }
    forall c | c in l.conns && l.conns[c] == Closing ensures l.slots > 0 { assert c in Unreleased(l); }
  }

  lemma {:induction false} SubsetIsNoLarger(a: set<Id>, b: set<Id>)
    requires a <= b
    ensures |a| <= |b|
  {
    if x :| x in a { SubsetIsNoLarger(a - {x}, b - {x}); }
  }

  /** A call is stuck when it can neither take a slot nor be told to stop. */
  predicate Blocked(l: Listener, a: Id)
    requires a in l.accepts
  {
    l.accepts[a] == Acquiring && !Enabled(l, Acquire(a)) && !Enabled(l, AcquireRefused(a))
  }

  /** An Accept waits exactly while the cap is reached and the listener is not closed; once
      it is closed, every call in progress, let in or not, returns within two steps and hands
      back what it took. */
  lemma CloseUnblocksEveryAccept(l: Listener, a: Id)
    requires Inv(l) && a in l.accepts
    ensures Blocked(l, a) <==> l.accepts[a] == Acquiring && l.slots == l.cap && !l.done
    ensures l.done && l.accepts[a] == Acquiring ==>
              && Enabled(l, AcquireRefused(a))
              && Enabled(Next(l, AcquireRefused(a)), InnerFails(a))
              && a !in Next(Next(l, AcquireRefused(a)), InnerFails(a)).accepts
              && Next(Next(l, AcquireRefused(a)), InnerFails(a)).slots == l.slots
    ensures l.accepts[a] == InnerAccept(true) ==>
              && Enabled(Next(l, InnerFails(a)), ReleaseAfterError(a))
              && a !in Next(Next(l, InnerFails(a)), ReleaseAfterError(a)).accepts
              && Next(Next(l, InnerFails(a)), ReleaseAfterError(a)).slots == l.slots - 1
  {
    if l.accepts[a] == InnerAccept(true) { assert a in Holding(l); }
  }

  /** Closing a connection again, any number of times, gives nothing back twice. */
  lemma RepeatedCloseReleasesOnce(l: Listener, c: Id)
    requires Inv(l) && c in l.conns && l.conns[c] == Open
    ensures var closing := Next(l, CloseConn(c));
            && Enabled(closing, ReleaseConn(c))
            && var released := Next(closing, ReleaseConn(c));
               && released.slots == l.slots - 1
               && Next(released, CloseConnAgain(c)) == released
               && !Enabled(released, CloseConn(c)) && !Enabled(released, ReleaseConn(c))
  {
    assert c in Unreleased(l);
  }

  function StrandingRun(): seq<Step> {
    [CallAccept(0), CloseInner, CloseDone, AcquireRefused(0)]
  }

  /** The assumption about the inner listener is needed: from a fresh listener, one that yields
      a connection after it was closed, to a call that took no slot, leaves a connection whose
      Close waits for a token nobody holds. */
  lemma DishonestListenerStrandsAClose(cap: nat)
    ensures Runs(Fresh(cap), StrandingRun())
    ensures var l := After(Fresh(cap), StrandingRun());
            && Inv(l) && Enabled(l, InnerYields(0, 7)) && !Honest(l, InnerYields(0, 7))
            && var closing := Next(Next(l, InnerYields(0, 7)), CloseConn(7));
               closing.conns[7] == Closing && !Enabled(closing, ReleaseConn(7))
  {
    var steps := StrandingRun();
    var l0 := Fresh(cap);
    var l1 := Next(l0, steps[0]);
    var l2 := Next(l1, steps[1]);
    var l3 := Next(l2, steps[2]);
    var l4 := Next(l3, steps[3]);
    assert Runs(l4, []) && After(l4, []) == l4;
    assert steps[1..][1..][1..] == [steps[3]] && [steps[3]][1..] == [];
    assert Runs(l3, steps[1..][1..][1..]) && After(l3, steps[1..][1..][1..]) == l4;
    assert Runs(l2, steps[1..][1..]) && After(l2, steps[1..][1..]) == l4;
    assert Runs(l1, steps[1..]) && After(l1, steps[1..]) == l4;
    assert Holding(l4) == {} && Unreleased(l4) == {};
  }
}
