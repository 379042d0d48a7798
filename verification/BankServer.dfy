/** The SmallBank server: account balances guarded by one mutex each, and the GET_LOCK and
    FINISH requests that take and release up to four of them. */
module BankServer {

  datatype Kind = Checking | Savings

  datatype Mutex = Mutex(kind: Kind, account: nat)

  /** One flag per lock a request can name: checking and savings of user 1 and of user 2.
      `lock_flag` of the server has these as bits 0 to 3. */
  datatype Flags = Flags(c1: bool, s1: bool, c2: bool, s2: bool)

  const NO_FLAGS := Flags(false, false, false, false)

  predicate Flag(f: Flags, b: nat) {
    (b == 0 && f.c1) || (b == 1 && f.s1) || (b == 2 && f.c2) || (b == 3 && f.s2)
  }

  function SetFlag(f: Flags, b: nat): Flags {
    Flags(f.c1 || b == 0, f.s1 || b == 1, f.c2 || b == 2, f.s2 || b == 3)
  }

  function MutexOf(u1: nat, u2: nat, b: nat): Mutex {
    Mutex(if b % 2 == 0 then Checking else Savings, if b < 2 then u1 else u2)
  }

  /** The mutexes named by the flags with number `from` and up. */
  function Named(u1: nat, u2: nat, f: Flags, from: nat): set<Mutex> {
    set b: nat | from <= b < 4 && Flag(f, b) :: MutexOf(u1, u2, b)
  }

  /** No two flags name the same mutex. */
  predicate Unaliased(u1: nat, u2: nat, f: Flags) {
    u1 == u2 ==> !(f.c1 && f.c2) && !(f.s1 && f.s2)
  }

  lemma SetFlagIs(f: Flags, b: nat)
    requires b < 4
    ensures forall c: nat :: Flag(SetFlag(f, b), c) <==> Flag(f, c) || c == b
  {
  }

  lemma FlagsEqual(f: Flags, g: Flags)
    requires forall b: nat :: b < 4 ==> (Flag(f, b) <==> Flag(g, b))
    ensures f == g
  {
    assert Flag(f, 0) == Flag(g, 0) && Flag(f, 1) == Flag(g, 1);
    assert Flag(f, 2) == Flag(g, 2) && Flag(f, 3) == Flag(g, 3);
  }

  lemma NamedMember(u1: nat, u2: nat, f: Flags, from: nat, b: nat)
    requires from <= b < 4 && Flag(f, b)
    ensures MutexOf(u1, u2, b) in Named(u1, u2, f, from)
  {
  }

  /** Passing one flag takes its mutex, and only that, out of the named set. */
  lemma NamedStep(u1: nat, u2: nat, f: Flags, b: nat)
    requires b < 4 && Unaliased(u1, u2, f)
    ensures Named(u1, u2, f, b + 1) ==
            Named(u1, u2, f, b) - (if Flag(f, b) then {MutexOf(u1, u2, b)} else {})
  {
    var x := MutexOf(u1, u2, b);
    assert Named(u1, u2, f, b) ==
           Named(u1, u2, f, b + 1) + (if Flag(f, b) then {x} else {}) by {
      forall y | y in Named(u1, u2, f, b)
        ensures y in Named(u1, u2, f, b + 1) + (if Flag(f, b) then {x} else {})
      {
        var c: nat :| b <= c < 4 && Flag(f, c) && y == MutexOf(u1, u2, c);
        if c > b {
          NamedMember(u1, u2, f, b + 1, c);
        }
      }
      if Flag(f, b) {
        NamedMember(u1, u2, f, b, b);
      }
      forall y | y in Named(u1, u2, f, b + 1)
        ensures y in Named(u1, u2, f, b)
      {
        var c: nat :| b + 1 <= c < 4 && Flag(f, c) && y == MutexOf(u1, u2, c);
        NamedMember(u1, u2, f, b, c);
      }
    }
    if Flag(f, b) {
      forall c: nat | b + 1 <= c < 4 && Flag(f, c)
        ensures MutexOf(u1, u2, c) != x
      {
        assert c != b + 2 ==> c % 2 != b % 2;
      }
    }
  }

  lemma NamedSet(u1: nat, u2: nat, f: Flags, b: nat)
    requires b < 4
    ensures Named(u1, u2, SetFlag(f, b), 0) == Named(u1, u2, f, 0) + {MutexOf(u1, u2, b)}
  {
    var g := SetFlag(f, b);
    forall y | y in Named(u1, u2, g, 0)
      ensures y in Named(u1, u2, f, 0) + {MutexOf(u1, u2, b)}
    {
      var c: nat :| 0 <= c < 4 && Flag(g, c) && y == MutexOf(u1, u2, c);
      if c != b {
        NamedMember(u1, u2, f, 0, c);
      }
    }
    forall y | y in Named(u1, u2, f, 0) + {MutexOf(u1, u2, b)}
      ensures y in Named(u1, u2, g, 0)
    {
      if y == MutexOf(u1, u2, b) {
        NamedMember(u1, u2, g, 0, b);
      } else {
        var c: nat :| 0 <= c < 4 && Flag(f, c) && y == MutexOf(u1, u2, c);
        NamedMember(u1, u2, g, 0, c);
      }
    }
  }

  lemma NamedNone(u1: nat, u2: nat, f: Flags, from: nat)
    requires from >= 4 || f == NO_FLAGS
    ensures Named(u1, u2, f, from) == {}
  {
  }

  // ----- GET_LOCK processed without interference ----------------------------------------

  /** The trylocks from flag b on: the locks taken before the first busy one, and whether one
      was busy. */
  function Acquire(held: set<Mutex>, u1: nat, u2: nat, locks: Flags, b: nat, taken: Flags): (Flags, bool)
    decreases 4 - b
  {
    if b >= 4 then (taken, false)
    else if !Flag(locks, b) then Acquire(held, u1, u2, locks, b + 1, taken)
    else if MutexOf(u1, u2, b) in held then (taken, true)
    else Acquire(held + {MutexOf(u1, u2, b)}, u1, u2, locks, b + 1, SetFlag(taken, b))
  }

  function Taken(held: set<Mutex>, u1: nat, u2: nat, locks: Flags): Flags {
    Acquire(held, u1, u2, locks, 0, NO_FLAGS).0
  }

  predicate Busy(held: set<Mutex>, u1: nat, u2: nat, locks: Flags) {
    Acquire(held, u1, u2, locks, 0, NO_FLAGS).1
  }

  datatype Mode =
    | Intended               // lock_flag collects one bit per lock taken
    | Literal(code: Flags)   // lock_flag is overwritten by the result of every trylock; `code`
                             // are the low four bits of the result of a failed one

  /** The mutexes held after a GET_LOCK request. */
  function AfterGetLock(mode: Mode, held: set<Mutex>, u1: nat, u2: nat, locks: Flags): set<Mutex> {
    var all := held + Named(u1, u2, Taken(held, u1, u2, locks), 0);
    if !Busy(held, u1, u2, locks) then all
    else if mode.Intended? then all - Named(u1, u2, Taken(held, u1, u2, locks), 0)
    else all - Named(u1, u2, mode.code, 0)
  }

  lemma {:induction false} AcquireTakesFree(held: set<Mutex>, u1: nat, u2: nat, locks: Flags, b: nat, taken: Flags)
    requires b <= 4 && Unaliased(u1, u2, taken)
    requires forall c: nat :: c < 4 && Flag(taken, c) ==> c < b && Flag(locks, c) && MutexOf(u1, u2, c) in held
    requires forall c: nat :: c < b && Flag(locks, c) ==> Flag(taken, c)
    ensures var (t, busy) := Acquire(held, u1, u2, locks, b, taken);
            && Unaliased(u1, u2, t)
            && (!busy ==> t == locks)
            && (busy ==> exists c: nat ::
                  c < 4 && Flag(locks, c) && MutexOf(u1, u2, c) in held + Named(u1, u2, t, 0))
            && (forall c: nat :: c < 4 && Flag(t, c) ==>
                  Flag(locks, c) && (Flag(taken, c) || MutexOf(u1, u2, c) !in held))
    decreases 4 - b
  {
    if b == 4 {
      FlagsEqual(taken, locks);
    } else if Flag(locks, b) && MutexOf(u1, u2, b) !in held {
      var x := MutexOf(u1, u2, b);
      SetFlagIs(taken, b);
      assert b >= 2 && u1 == u2 ==> MutexOf(u1, u2, b - 2) == x && !Flag(taken, b - 2);
      var (t, busy) := Acquire(held + {x}, u1, u2, locks, b + 1, SetFlag(taken, b));
      AcquireTakesFree(held + {x}, u1, u2, locks, b + 1, SetFlag(taken, b));
      AcquireGrows(held + {x}, u1, u2, locks, b + 1, SetFlag(taken, b));
      NamedMember(u1, u2, t, 0, b);
    } else if !Flag(locks, b) {
      AcquireTakesFree(held, u1, u2, locks, b + 1, taken);
    }
  }

  lemma {:induction false} AcquireGrows(held: set<Mutex>, u1: nat, u2: nat, locks: Flags, b: nat, taken: Flags)
    ensures forall c: nat :: Flag(taken, c) ==> Flag(Acquire(held, u1, u2, locks, b, taken).0, c)
    decreases 4 - b
  {
    if b < 4 {
      if !Flag(locks, b) {
        AcquireGrows(held, u1, u2, locks, b + 1, taken);
      } else if MutexOf(u1, u2, b) !in held {
        AcquireGrows(held + {MutexOf(u1, u2, b)}, u1, u2, locks, b + 1, SetFlag(taken, b));
      }
    }
  }

  /** The intended GET_LOCK is all or nothing: it succeeds exactly when all the locks it names
      are free and different, and then holds exactly these in addition; a failed one changes no
      lock. */
  lemma IntendedAllOrNothing(held: set<Mutex>, u1: nat, u2: nat, locks: Flags)
    ensures Busy(held, u1, u2, locks) <==>
            !(Named(u1, u2, locks, 0) !! held && Unaliased(u1, u2, locks))
    ensures AfterGetLock(Intended, held, u1, u2, locks) ==
            if Busy(held, u1, u2, locks) then held else held + Named(u1, u2, locks, 0)
    ensures Named(u1, u2, Taken(held, u1, u2, locks), 0) !! held
  {
    var t := Taken(held, u1, u2, locks);
    AcquireTakesFree(held, u1, u2, locks, 0, NO_FLAGS);
    forall x | x in Named(u1, u2, t, 0) ensures x !in held {
      var c: nat :| 0 <= c < 4 && Flag(t, c) && x == MutexOf(u1, u2, c);
    }
    if Busy(held, u1, u2, locks) {
      var c: nat :| c < 4 && Flag(locks, c) && MutexOf(u1, u2, c) in held + Named(u1, u2, t, 0);
      NamedMember(u1, u2, locks, 0, c);
      if MutexOf(u1, u2, c) !in held && Unaliased(u1, u2, locks) {
        BusyOnItself(held, u1, u2, locks);
      }
    } else {
      assert t == locks;
    }
  }

  /** Different free locks are never found busy. */
  lemma BusyOnItself(held: set<Mutex>, u1: nat, u2: nat, locks: Flags)
    requires Unaliased(u1, u2, locks) && Busy(held, u1, u2, locks)
    ensures !(Named(u1, u2, locks, 0) !! held)
  {
    if Named(u1, u2, locks, 0) !! held {
      FreeStaysFree(held, u1, u2, locks, 0, NO_FLAGS);
    }
  }

  lemma {:induction false} FreeStaysFree(held: set<Mutex>, u1: nat, u2: nat, locks: Flags, b: nat, taken: Flags)
    requires b <= 4 && Unaliased(u1, u2, locks) && Named(u1, u2, locks, b) !! held
    ensures !Acquire(held, u1, u2, locks, b, taken).1
    decreases 4 - b
  {
    if b < 4 {
      NamedStep(u1, u2, locks, b);
      if !Flag(locks, b) {
        FreeStaysFree(held, u1, u2, locks, b + 1, taken);
      } else {
        NamedMember(u1, u2, locks, b, b);
        FreeStaysFree(held + {MutexOf(u1, u2, b)}, u1, u2, locks, b + 1, SetFlag(taken, b));
      }
    }
  }

  // ----- which locks a request takes ----------------------------------------------------------

  /** The flags with numbers below b. */
  function Below(f: Flags, b: nat): Flags {
    Flags(f.c1 && b > 0, f.s1 && b > 1, f.c2 && b > 2, f.s2 && b > 3)
  }

  lemma BelowNext(f: Flags, b: nat)
    requires b < 4
    ensures Below(f, b + 1) == if Flag(f, b) then SetFlag(Below(f, b), b) else Below(f, b)
    ensures Below(f, 4) == f && Below(f, 0) == NO_FLAGS
  {
  }

  /** The lock with number c is free and is not one the request has named before. */
  predicate FreeAt(held: set<Mutex>, u1: nat, u2: nat, locks: Flags, c: nat) {
    && MutexOf(u1, u2, c) !in held
    && forall d: nat :: d < c && Flag(locks, d) ==> MutexOf(u1, u2, d) != MutexOf(u1, u2, c)
  }

  /** All locks the request names, up to number b, can be taken. */
  predicate FreeUpTo(held: set<Mutex>, u1: nat, u2: nat, locks: Flags, b: nat) {
    forall c: nat :: c <= b && Flag(locks, c) ==> FreeAt(held, u1, u2, locks, c)
  }

  lemma FreeAtIs(held: set<Mutex>, u1: nat, u2: nat, locks: Flags, b: nat)
    requires b < 4
    ensures FreeAt(held, u1, u2, locks, b) <==> MutexOf(u1, u2, b) !in held + Named(u1, u2, Below(locks, b), 0)
  {
    var f := Below(locks, b);
    if !FreeAt(held, u1, u2, locks, b) && MutexOf(u1, u2, b) !in held {
      var d: nat :| d < b && Flag(locks, d) && MutexOf(u1, u2, d) == MutexOf(u1, u2, b);
      NamedMember(u1, u2, f, 0, d);
    }
  }

  lemma {:induction false} AcquireTakes(held: set<Mutex>, u1: nat, u2: nat, locks: Flags, b: nat)
    requires b <= 4 && forall c: nat :: c < b && Flag(locks, c) ==> FreeAt(held, u1, u2, locks, c)
    ensures var taken := Acquire(held + Named(u1, u2, Below(locks, b), 0), u1, u2, locks, b, Below(locks, b)).0;
            forall c: nat :: Flag(taken, c) <==> Flag(locks, c) && FreeUpTo(held, u1, u2, locks, c)
    decreases 4 - b
  {
    var f := Below(locks, b);
    if b < 4 {
      BelowNext(locks, b);
      FreeAtIs(held, u1, u2, locks, b);
      if !Flag(locks, b) {
        AcquireTakes(held, u1, u2, locks, b + 1);
      } else if FreeAt(held, u1, u2, locks, b) {
        NamedSet(u1, u2, f, b);
        AcquireTakes(held, u1, u2, locks, b + 1);
        assert held + Named(u1, u2, f, 0) + {MutexOf(u1, u2, b)} == held + Named(u1, u2, Below(locks, b + 1), 0);
      }
    }
  }

  lemma TakenIs(held: set<Mutex>, u1: nat, u2: nat, locks: Flags)
    ensures forall c: nat :: Flag(Taken(held, u1, u2, locks), c) <==> Flag(locks, c) && FreeUpTo(held, u1, u2, locks, c)
  {
    BelowNext(locks, 0);
    NamedNone(u1, u2, NO_FLAGS, 0);
    assert held + {} == held;
    AcquireTakes(held, u1, u2, locks, 0);
  }

  lemma {:induction false} PassesRest(held: set<Mutex>, u1: nat, u2: nat, locks: Flags, b: nat, taken: Flags)
    requires forall c: nat :: b <= c < 4 ==> !Flag(locks, c)
    ensures Acquire(held, u1, u2, locks, b, taken) == (taken, false)
    decreases 4 - b
  {
    if b < 4 {
      PassesRest(held, u1, u2, locks, b + 1, taken);
    }
  }

  /** A request for a single lock. */
  lemma OneLock(held: set<Mutex>, u1: nat, u2: nat, locks: Flags, b: nat)
    requires b < 2 && locks == SetFlag(NO_FLAGS, b)
    ensures Acquire(held, u1, u2, locks, 0, NO_FLAGS) ==
            if MutexOf(u1, u2, b) in held then (NO_FLAGS, true) else (locks, false)
    ensures Named(u1, u2, locks, 0) == {MutexOf(u1, u2, b)}
  {
    var x := MutexOf(u1, u2, b);
    NamedSet(u1, u2, NO_FLAGS, b);
    NamedNone(u1, u2, NO_FLAGS, 0);
    PassesRest(held + {x}, u1, u2, locks, b + 1, locks);
    if b == 1 {
      assert Acquire(held, u1, u2, locks, 0, NO_FLAGS) == Acquire(held, u1, u2, locks, 1, NO_FLAGS);
    }
  }

  // ----- the code as written -----------------------------------------------------------------

  /** The locks named by the failure code make up for all locks taken. */
  predicate CodeCovers(code: Flags, held: set<Mutex>, u1: nat, u2: nat, locks: Flags) {
    forall b: nat :: b < 4 && Flag(locks, b) && FreeUpTo(held, u1, u2, locks, b) ==>
      MutexOf(u1, u2, b) in Named(u1, u2, code, 0)
  }

  lemma CoversTaken(code: Flags, held: set<Mutex>, u1: nat, u2: nat, locks: Flags)
    ensures Named(u1, u2, Taken(held, u1, u2, locks), 0) <= Named(u1, u2, code, 0) <==>
            CodeCovers(code, held, u1, u2, locks)
  {
    var t := Taken(held, u1, u2, locks);
    TakenIs(held, u1, u2, locks);
    if Named(u1, u2, t, 0) <= Named(u1, u2, code, 0) {
      forall b: nat | b < 4 && Flag(locks, b) && FreeUpTo(held, u1, u2, locks, b)
        ensures MutexOf(u1, u2, b) in Named(u1, u2, code, 0)
      {
        NamedMember(u1, u2, t, 0, b);
      }
    }
  }

  lemma RestoresIff(held: set<Mutex>, t: set<Mutex>, f: set<Mutex>)
    requires t !! held
    ensures (held + t) - f == held <==> t <= f && f !! held
  {
    if (held + t) - f == held {
      forall x | x in t ensures x in f {
        assert x in held + t && x !in held;
      }
      forall x | x in f ensures x !in held {
        assert x !in (held + t) - f;
      }
    }
  }

  /** One request of the code as written leaves the same locks as the intended form if and only if
      all its locks are free and different, or the locks named by the failure code cover those
      before the first one that is not, and touch no lock that was held before. */
  lemma LiteralMatchesIff(code: Flags, held: set<Mutex>, u1: nat, u2: nat, locks: Flags)
    ensures AfterGetLock(Literal(code), held, u1, u2, locks) == AfterGetLock(Intended, held, u1, u2, locks)
            <==> (Named(u1, u2, locks, 0) !! held && Unaliased(u1, u2, locks))
                 || (CodeCovers(code, held, u1, u2, locks) && Named(u1, u2, code, 0) !! held)
  {
    IntendedAllOrNothing(held, u1, u2, locks);
    CoversTaken(code, held, u1, u2, locks);
    if Busy(held, u1, u2, locks) {
      RestoresIff(held, Named(u1, u2, Taken(held, u1, u2, locks), 0), Named(u1, u2, code, 0));
    }
  }

  /** The code as written, as requests on a lock table: with a failure code that has bit 0, of
      three requests for the same checking account, without any FINISH, the first is granted, the
      second fails but releases the lock, and the third is granted again. */
  lemma LiteralGrantsTwice(code: Flags, u: nat)
    requires code.c1
    ensures var lock, mode := Flags(true, false, false, false), Literal(code);
            var h1 := AfterGetLock(mode, {}, u, u, lock);
            var h2 := AfterGetLock(mode, h1, u, u, lock);
            && !Busy({}, u, u, lock) && h1 == {Mutex(Checking, u)}
            && Busy(h1, u, u, lock) && h2 == {}
            && !Busy(h2, u, u, lock)
  {
    var lock := Flags(true, false, false, false);
    var x := Mutex(Checking, u);
    assert MutexOf(u, u, 0) == x;
    NamedNone(u, u, NO_FLAGS, 0);
    NamedMember(u, u, code, 0, 0);
    OneLock({}, u, u, lock, 0);
    OneLock({x}, u, u, lock, 0);
  }

  // ----- the server's memory --------------------------------------------------------------------

  datatype Balances = Balances(c1: nat, s1: nat, c2: nat, s2: nat)

  const HALF_MAX := 0x7fff_ffff_ffff_ffff   // SIZE_MAX / 2

  /** The account arrays a server thread works on in place. */
  class Bank {
    const accounts: nat
    const checking: array<nat>
    const savings: array<nat>
    const checkingLocked: array<bool>
    const savingsLocked: array<bool>
    var finishCount: nat
    var abortCount: nat

    ghost predicate Valid()
      reads this
    {
      && checking.Length == accounts && savings.Length == accounts
      && checkingLocked.Length == accounts && savingsLocked.Length == accounts
      && checking != savings && checkingLocked != savingsLocked
    }

    ghost function Held(): set<Mutex>
      reads this, checkingLocked, savingsLocked
      requires Valid()
    {
      (set u: nat | u < accounts && checkingLocked[u] :: Mutex(Checking, u)) +
      (set u: nat | u < accounts && savingsLocked[u] :: Mutex(Savings, u))
    }

    ghost predicate IsHeld(x: Mutex)
      reads this, checkingLocked, savingsLocked
      requires Valid()
    {
      x.account < accounts &&
      (if x.kind.Checking? then checkingLocked[x.account] else savingsLocked[x.account])
    }

    ghost function Balance(x: Mutex): nat
      reads this, checking, savings
      requires Valid() && x.account < accounts
    {
      if x.kind.Checking? then checking[x.account] else savings[x.account]
    }

    lemma HeldIff(x: Mutex)
      requires Valid()
      ensures x in Held() <==> IsHeld(x)
    {
    }

    /** init_saving_and_checking. */
    constructor (accounts: nat)
      ensures Valid() && this.accounts == accounts && Held() == {} && finishCount == 0 && abortCount == 0
      ensures forall x: Mutex :: x.account < accounts ==> Balance(x) == HALF_MAX
    {
      this.accounts := accounts;
      checking := new nat[accounts](i => 0);
      savings := new nat[accounts](i => 0);
      checkingLocked := new bool[accounts](i => true);
      savingsLocked := new bool[accounts](i => true);
      finishCount, abortCount := 0, 0;
      new;
      for i := 0 to accounts
        modifies savings, savingsLocked
        invariant forall j :: 0 <= j < i ==> savings[j] == HALF_MAX && !savingsLocked[j]
      {
        savings[i] := HALF_MAX;
        savingsLocked[i] := false;
      }
      for i := 0 to accounts
        modifies checking, checkingLocked
        invariant forall j :: 0 <= j < i ==> checking[j] == HALF_MAX && !checkingLocked[j]
      {
        checking[i] := HALF_MAX;
        checkingLocked[i] := false;
      }
    }

    method SetLock(x: Mutex, v: bool)
      requires Valid() && x.account < accounts
      modifies checkingLocked, savingsLocked
      ensures Held() == if v then old(Held()) + {x} else old(Held()) - {x}
    {
      if x.kind.Checking? {
        checkingLocked[x.account] := v;
      } else {
        savingsLocked[x.account] := v;
      }
      forall y: Mutex
        ensures y in Held() <==> y in (if v then old(Held()) + {x} else old(Held()) - {x})
      {
        HeldIff(y);
        assert y in old(Held()) <==> old(IsHeld(y));
      }
    }

    method TryLock(x: Mutex) returns (taken: bool)
      requires Valid() && x.account < accounts
      modifies checkingLocked, savingsLocked
      ensures taken <==> x !in old(Held())
      ensures Held() == old(Held()) + {x}
    {
      HeldIff(x);
      taken := !(if x.kind.Checking? then checkingLocked[x.account] else savingsLocked[x.account]);
      SetLock(x, true);
    }

    /** What the trylocks before number b have done: `taken` is what they took. */
    ghost predicate Trylocked(mode: Mode, held: set<Mutex>, u1: nat, u2: nat, locks: Flags, b: nat,
                              taken: Flags, flag: Flags, failed: bool)
      reads this, checkingLocked, savingsLocked
      requires Valid()
    {
      && Held() == held + Named(u1, u2, taken, 0)
      && Acquire(held, u1, u2, locks, 0, NO_FLAGS) ==
         (if failed then (taken, true) else Acquire(Held(), u1, u2, locks, b, taken))
      && (mode.Intended? ==> flag == taken)
      && (mode.Literal? && failed ==> flag == mode.code)
    }

    /** One trylock and what it does to lock_flag. */
    method TryOne(mode: Mode, u1: nat, u2: nat, locks: Flags, b: nat, flag: Flags,
                  ghost held: set<Mutex>, ghost taken: Flags)
      returns (flag': Flags, failed: bool, ghost taken': Flags)
      requires Valid() && u1 < accounts && u2 < accounts && b < 4 && Flag(locks, b)
      requires Trylocked(mode, held, u1, u2, locks, b, taken, flag, false)
      modifies checkingLocked, savingsLocked
      ensures Trylocked(mode, held, u1, u2, locks, b + 1, taken', flag', failed)
    {
      var x := MutexOf(u1, u2, b);
      ghost var before := Held();
      var got := TryLock(x);
      if got {
        NamedSet(u1, u2, taken, b);
        flag', failed, taken' := SetFlag(if mode.Intended? then flag else NO_FLAGS, b), false, SetFlag(taken, b);
      } else {
        assert before + {x} == before;
        flag', failed, taken' := if mode.Intended? then flag else mode.code, true, taken;
      }
    }

    /** RPC_GET_LOCK, with the collecting or the overwritten lock_flag. */
    method GetLock(mode: Mode, u1: nat, u2: nat, locks: Flags) returns (success: bool)
      requires Valid() && u1 < accounts && u2 < accounts
      modifies this`abortCount, checkingLocked, savingsLocked
      ensures success <==> !Busy(old(Held()), u1, u2, locks)
      ensures Held() == AfterGetLock(mode, old(Held()), u1, u2, locks)
      ensures abortCount == old(abortCount) + (if success then 0 else 1)
    {
      var flag, failed := NO_FLAGS, false;
      ghost var held, taken := Held(), NO_FLAGS;
      NamedNone(u1, u2, NO_FLAGS, 0);
      for b := 0 to 4
        invariant Trylocked(mode, held, u1, u2, locks, b, taken, flag, failed)
        modifies checkingLocked, savingsLocked
      {
        if !failed && Flag(locks, b) {
          flag, failed, taken := TryOne(mode, u1, u2, locks, b, flag, held, taken);
        }
      }
      if failed {
        Release(u1, u2, flag);
        abortCount := abortCount + 1;
      }
      success := !failed;
    }

    /** The conditional spin_unlock calls. */
    method Release(u1: nat, u2: nat, f: Flags)
      requires Valid() && u1 < accounts && u2 < accounts
      modifies checkingLocked, savingsLocked
      ensures Held() == old(Held()) - Named(u1, u2, f, 0)
    {
      ghost var gone: Flags := NO_FLAGS;
      assert Named(u1, u2, NO_FLAGS, 0) == {};
      for b := 0 to 4
        invariant Held() == old(Held()) - Named(u1, u2, gone, 0)
        invariant forall c: nat :: Flag(gone, c) <==> c < b && Flag(f, c)
      {
        if Flag(f, b) {
          SetLock(MutexOf(u1, u2, b), false);
          NamedSet(u1, u2, gone, b);
          SetFlagIs(gone, b);
          gone := SetFlag(gone, b);
        }
      }
      FlagsEqual(gone, f);
    }

    method WriteBalances(u1: nat, u2: nat, changed: Flags, v: Balances)
      requires Valid() && u1 < accounts && u2 < accounts
      modifies checking, savings
      ensures forall x: Mutex ::
        x.account < accounts && x !in Named(u1, u2, changed.(s2 := false), 0) ==>
        Balance(x) == old(Balance(x))
      ensures changed.c1 && !(changed.c2 && u1 == u2) ==> Balance(Mutex(Checking, u1)) == v.c1
      ensures changed.s1 ==> Balance(Mutex(Savings, u1)) == v.s1
      ensures changed.c2 ==> Balance(Mutex(Checking, u2)) == v.c2
    {
      ghost var f := changed.(s2 := false);
      assert changed.c1 ==> Mutex(Checking, u1) in Named(u1, u2, f, 0) by {
        if changed.c1 { NamedMember(u1, u2, f, 0, 0); }
      }
      assert changed.s1 ==> Mutex(Savings, u1) in Named(u1, u2, f, 0) by {
        if changed.s1 { NamedMember(u1, u2, f, 0, 1); }
      }
      assert changed.c2 ==> Mutex(Checking, u2) in Named(u1, u2, f, 0) by {
        if changed.c2 { NamedMember(u1, u2, f, 0, 2); }
      }
      if changed.c1 {
        checking[u1] := v.c1;
      }
      if changed.s1 {
        savings[u1] := v.s1;
      }
      if changed.c2 {
        checking[u2] := v.c2;
      }
    }

    /** RPC_FINISH: three balances can be written, four locks released. The savings balance of
        user 2 is never written, although a request can ask for it. */
    method Finish(u1: nat, u2: nat, changed: Flags, unlock: Flags, v: Balances)
      requires Valid() && u1 < accounts && u2 < accounts
      modifies this`finishCount, checking, savings, checkingLocked, savingsLocked
      ensures Held() == old(Held()) - Named(u1, u2, unlock, 0)
      ensures finishCount == old(finishCount) + 1
      ensures forall x: Mutex ::
        x.account < accounts && x !in Named(u1, u2, changed.(s2 := false), 0) ==>
        Balance(x) == old(Balance(x))
      ensures changed.c1 && !(changed.c2 && u1 == u2) ==> Balance(Mutex(Checking, u1)) == v.c1
      ensures changed.s1 ==> Balance(Mutex(Savings, u1)) == v.s1
      ensures changed.c2 ==> Balance(Mutex(Checking, u2)) == v.c2
    {
      WriteBalances(u1, u2, changed, v);
      Release(u1, u2, unlock);
      finishCount := finishCount + 1;
    }
  }
}
