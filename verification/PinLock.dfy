/**
 The PIN lock-out of eacpay/WalletManager+Auth.swift: the fail count and fail time in the keychain, the PINs that have
 failed since the app was started, and the wipe after the eighth counted failure. Keychain writes succeed, and a clock
 reading is any real number, on every call anew.
 */
module PinLock {
  import opened Common

  type Pin = string

  // The keychain items (an absent count or time reads as 0) and the static array of failed PINs.
  datatype State = State(failCount: nat, failTime: int, pin: Option<Pin>, failedPins: seq<Pin>)

  function Fresh(): State {
    State(0, 0, None, [])
  }

  const LIMIT: nat := 8

  // ---------------------------------------------------------------- one attempt

  /** `pow(6, failCount - 3) * 60`. */
  function LockSeconds(failCount: nat): nat
    requires failCount >= 3
  {
    60 * Pow(6, failCount - 3)
  }

  /** The lock-outs: one minute after the third failure, and six times as long after each further one. */
  lemma SixTimesLonger(failCount: nat)
    requires failCount >= 3
    ensures LockSeconds(3) == 60 && LockSeconds(failCount + 1) == 6 * LockSeconds(failCount)
  {
    assert Pow(6, 0) == 1;
    assert Pow(6, failCount + 1 - 3) == 6 * Pow(6, failCount - 3);
  }

  predicate Locked(s: State, now: real) {
    s.failCount >= 3 && now < (s.failTime + LockSeconds(s.failCount)) as real
  }

  /** authenticationSuccess. */
  function Reset(s: State): State {
    s.(failCount := 0, failTime := 0, failedPins := [])
  }

  /** wipeWallet removes the keychain items; the static array stays. */
  function Wipe(s: State): State {
    s.(failCount := 0, failTime := 0, pin := None)
  }

  datatype Outcome = Outcome(state: State, ok: bool, wiped: bool)

  /** `Int64(secureTime)` for a time after the stored one, which is never negative. */
  function NewFailTime(failTime: int, now: real): int {
    if now > failTime as real then now.Floor else failTime
  }

  function Authenticate(s: State, pin: Pin, now: real): Outcome {
    if Locked(s, now) then Outcome(s, false, false)
    else if Some(pin) == s.pin then Outcome(Reset(s), true, false)
    else if pin in s.failedPins then Outcome(s, false, false)
    else
      var t := s.(failCount := s.failCount + 1, failedPins := s.failedPins + [pin]);
      if t.failCount >= LIMIT then Outcome(Wipe(t), false, true)
      else Outcome(t.(failTime := NewFailTime(t.failTime, now)), false, false)
  }

  /** An attempt succeeds exactly when there is no lock-out and the PIN is the stored one; nothing else ever does. */
  lemma OnlyTheStoredPin(s: State, pin: Pin, now: real)
    ensures Authenticate(s, pin, now).ok <==> !Locked(s, now) && s.pin == Some(pin)
    ensures Locked(s, now) ==> Authenticate(s, pin, now) == Outcome(s, false, false)
  {
  }

  /** A wrong PIN that has not failed before counts; the third failure and each further one lock authentication out for
      LockSeconds of the new count, from the whole second of a clock that has not gone back. */
  lemma FailureLocks(s: State, pin: Pin, now: real, later: real)
    requires !Locked(s, now) && s.pin != Some(pin) && pin !in s.failedPins
    requires s.failCount < 7 && now > s.failTime as real
    ensures var t := Authenticate(s, pin, now).state;
            && t.failCount == s.failCount + 1 && t.failedPins == s.failedPins + [pin] && t.pin == s.pin
            && t.failTime == now.Floor
            && (Locked(t, later) <==> s.failCount >= 2 && later < (now.Floor + LockSeconds(s.failCount + 1)) as real)
  {
  }

  /** walletDisabledUntil. */
  function DisabledUntil(s: State): real {
    if s.failCount < 3 then 0.0 else (s.failTime + LockSeconds(s.failCount)) as real
  }

  /** The time that is shown to the user is the one that authenticate(pin:) goes by, for every clock reading after
      1970. */
  lemma DisabledUntilIsLocked(s: State, now: real)
    requires now >= 0.0
    ensures Locked(s, now) <==> now < DisabledUntil(s)
  {
  }

  // ---------------------------------------------------------------- runs

  // What can happen to the wallet: an attempt, a restart of the app, changePin, forceSetPin with the right phrase (or
  // with no PIN set), and a wipe on request.
  datatype Event =
    | Attempt(pin: Pin, now: real)
    | Restart
    | Change(newPin: Pin, pin: Pin, now: real)
    | ForceSet(newPin: Pin)
    | WipeRequest

  function Step(s: State, e: Event): Outcome {
    match e
    case Attempt(pin, now) => Authenticate(s, pin, now)
    case Restart => Outcome(s.(failedPins := []), false, false)
    case Change(newPin, pin, now) =>
      var o := Authenticate(s, pin, now);
      if o.ok then o.(state := o.state.(pin := Some(newPin))) else o
    case ForceSet(newPin) => Outcome(Reset(s.(pin := Some(newPin))), true, false)
    case WipeRequest => Outcome(Wipe(s), false, false)
  }

  /** The PIN changes only by a success of changePin or forceSetPin and by a wipe; the eighth counted failure wipes. */
  lemma PinAfter(s: State, e: Event)
    ensures Step(s, e).state.pin ==
              if e.ForceSet? || (e.Change? && Step(s, e).ok) then Some(e.newPin)
              else if Step(s, e).wiped || e.WipeRequest? then None
              else s.pin
    ensures Step(s, e).wiped <==>
              (e.Attempt? || e.Change?) && !Locked(s, e.now) && s.pin != Some(e.pin) && e.pin !in s.failedPins &&
              s.failCount >= 7
    ensures Step(s, e).wiped || e.WipeRequest? ==> Step(s, e).state.failCount == Step(s, e).state.failTime == 0
  {
  }

  /** The clock reading of an event, if it has one. */
  function Clock(e: Event): Option<real> {
    match e
    case Attempt(_, now) => Some(now)
    case Change(_, _, now) => Some(now)
    case _ => None
  }

  // A run watched from outside: the state, and the clock reading of the third counted failure since the last reset.
  datatype Watched = Watched(s: State, third: Option<real>)

  function Watch(m: Watched, e: Event): Watched {
    var t := Step(m.s, e).state;
    Watched(t, if t.failCount < 3 then None else if m.s.failCount < 3 then Clock(e) else m.third)
  }

  function Run(es: seq<Event>): Watched {
    if es == [] then Watched(Fresh(), None) else Watch(Run(es[..|es| - 1]), es[|es| - 1])
  }

  /** How long the lock-outs for all counts from 3 up to `failCount` take. */
  function Served(failCount: nat): nat {
    if failCount <= 3 then 0 else Served(failCount - 1) + LockSeconds(failCount - 1)
  }

  lemma ServedAll()
    ensures Served(8) == 60 * (1 + 6 + 36 + 216 + 1296) == 93300
  {
    assert Pow(6, 0) == 1 && Pow(6, 1) == 6 && Pow(6, 2) == 36 && Pow(6, 3) == 216 && Pow(6, 4) == 1296;
    assert Served(4) == 60 && Served(5) == 420 && Served(6) == 2580 && Served(7) == 15540;
  }

  /** The stored fail time is at least as late as the third failure and all the lock-outs served since. */
  predicate Late(m: Watched) {
    && m.s.failCount < LIMIT && m.s.failTime >= 0
    && (m.s.failCount >= 3 ==> m.third.Some? && m.s.failTime >= m.third.value.Floor + Served(m.s.failCount))
  }

  lemma WatchKeepsLate(m: Watched, e: Event)
    requires Late(m)
    ensures Late(Watch(m, e))
  {
    if Clock(e).Some? {
      AttemptKeepsLate(m, e.pin, Clock(e).value);
    }
  }

  lemma AttemptKeepsLate(m: Watched, pin: Pin, now: real)
    requires Late(m)
    ensures var o := Authenticate(m.s, pin, now);
            var third := if o.state.failCount < 3 then None else if m.s.failCount < 3 then Some(now) else m.third;
            Late(Watched(o.state, third))
  {
  }

  lemma {:induction false} RunIsLate(es: seq<Event>)
    ensures Late(Run(es))
  {
    if es == [] {
    } else {
      RunIsLate(es[..|es| - 1]);
      WatchKeepsLate(Run(es[..|es| - 1]), es[|es| - 1]);
    }
  }

  /** Over every run, whatever the clock shows and however often the app is restarted: the wipe comes at least 93300
      seconds after the whole second of the third counted failure since the last reset; after the failure itself when
      that falls on a whole second, and otherwise still more than 93299 seconds after it. */
  lemma WipeIsLate(es: seq<Event>, e: Event)
    requires Step(Run(es).s, e).wiped
    ensures Clock(e).Some? && Run(es).third.Some?
    ensures var third := Run(es).third.value;
            && Clock(e).value >= (third.Floor + 93300) as real
            && (third.Floor as real == third ==> Clock(e).value >= third + 93300.0)
            && Clock(e).value > third + 93299.0
  {
    RunIsLate(es);
    ServedAll();
  }

  // ---------------------------------------------------------------- when the bound holds to the fraction of a second

  /** The state that the events `fs` lead to. */
  function After(s: State, fs: seq<Event>): State {
    if fs == [] then s else Step(After(s, fs[..|fs| - 1]), fs[|fs| - 1]).state
  }

  /** The failures are not reset on the way. */
  predicate Counting(s: State, fs: seq<Event>) {
    s.failCount >= 3 && (fs != [] ==> Counting(s, fs[..|fs| - 1]) && After(s, fs).failCount >= 3)
  }

  /** The count is 3 or more after the first k events, for every k. */
  ghost predicate NeverBelow(s: State, fs: seq<Event>) {
    forall k {:trigger fs[..k]} :: 0 <= k <= |fs| ==> After(s, fs[..k]).failCount >= 3
  }

  lemma NeverBelowStep(s: State, fs: seq<Event>)
    requires fs != []
    ensures NeverBelow(s, fs) <==> NeverBelow(s, fs[..|fs| - 1]) && After(s, fs).failCount >= 3
  {
    var before := fs[..|fs| - 1];
    assert fs[..|fs|] == fs;
    assert forall k {:trigger fs[..k]} :: 0 <= k < |fs| ==> before[..k] == fs[..k];
    if NeverBelow(s, fs) {
      forall k {:trigger before[..k]} | 0 <= k < |fs| ensures After(s, before[..k]).failCount >= 3 {
        assert before[..k] == fs[..k];
      }
    }
  }

  lemma {:induction false} CountingIs(s: State, fs: seq<Event>)
    ensures Counting(s, fs) <==> NeverBelow(s, fs)
  {
    if fs == [] {
      assert fs[..0] == [];
      assert NeverBelow(s, fs) ==> After(s, fs[..0]).failCount >= 3;
    } else {
      CountingIs(s, fs[..|fs| - 1]);
      NeverBelowStep(s, fs);
      assert Counting(s, fs[..|fs| - 1]) ==> s.failCount >= 3;
    }
  }

  /** Whatever happens from `s` on, a wipe for too many failures comes 93300 seconds after `third` or later. */
  ghost predicate WipesOnTime(s: State, third: real) {
    forall fs, e {:trigger Step(After(s, fs), e)} ::
      Counting(s, fs) && Step(After(s, fs), e).wiped ==> Clock(e).Some? && Clock(e).value >= third + 93300.0
  }

  /** The stored fail time moves on by every lock-out served. */
  lemma {:induction false} AfterIsLate(s: State, fs: seq<Event>)
    requires 0 <= s.failTime && 3 <= s.failCount < LIMIT && Counting(s, fs)
    ensures var t := After(s, fs);
            3 <= t.failCount < LIMIT && 0 <= t.failTime &&
              t.failTime >= s.failTime + Served(t.failCount) - Served(s.failCount)
  {
    if fs == [] {
    } else {
      var before := After(s, fs[..|fs| - 1]);
      AfterIsLate(s, fs[..|fs| - 1]);
      WatchKeepsLate(Watched(before, Some((s.failTime - Served(s.failCount)) as real)), fs[|fs| - 1]);
    }
  }

  /** A PIN longer than all those used. */
  function Unused(used: seq<Pin>): (p: Pin)
    ensures forall i :: 0 <= i < |used| ==> |p| > |used[i]|
  {
    if used == [] then "0"
    else
      var rest, last := used[..|used| - 1], used[|used| - 1];
      var q := Unused(rest);
      assert forall i :: 0 <= i < |used| - 1 ==> |q| > |rest[i]| && rest[i] == used[i];
      if |q| > |last| then q else last + "0"
  }

  /** A PIN that is neither the stored one nor has failed. */
  function Wrong(s: State): (p: Pin)
    ensures p !in s.failedPins && s.pin != Some(p)
  {
    var used := (if s.pin.Some? then [s.pin.value] else []) + s.failedPins;
    var q := Unused(used);
    assert forall i :: 0 <= i < |s.failedPins| ==> s.failedPins[i] == used[|used| - |s.failedPins| + i];
    assert s.pin.Some? ==> used[0] == s.pin.value;
    q
  }

  /** A wrong PIN at the very moment the lock-out ends. */
  function Next(s: State): Event {
    Attempt(Wrong(s), DisabledUntil(s))
  }

  lemma NextCounts(s: State)
    requires 0 <= s.failTime && 3 <= s.failCount < LIMIT
    ensures var o := Step(s, Next(s));
            if s.failCount == 7 then o.wiped
            else o.state.failCount == s.failCount + 1 && o.state.failTime == s.failTime + LockSeconds(s.failCount)
  {
  }

  /** The fastest way to the wipe: a wrong PIN whenever a lock-out ends. */
  function Fastest(s: State, n: nat): (fs: seq<Event>)
    ensures |fs| == n
  {
    if n == 0 then [] else Fastest(s, n - 1) + [Next(After(s, Fastest(s, n - 1)))]
  }

  lemma {:induction false} FastestAfter(s: State, n: nat)
    requires 0 <= s.failTime && s.failCount == 3 && n <= 4
    ensures Counting(s, Fastest(s, n))
    ensures var t := After(s, Fastest(s, n)); t.failCount == 3 + n && t.failTime == s.failTime + Served(3 + n)
  {
    if n == 0 {
    } else {
      var fs := Fastest(s, n - 1);
      FastestAfter(s, n - 1);
      NextCounts(After(s, fs));
      assert Fastest(s, n)[..n - 1] == fs;
    }
  }

  /** From any third failure on, the wipe can come exactly 93300 seconds after the stored fail time. */
  lemma BoundIsMet(s: State)
    requires 0 <= s.failTime && s.failCount == 3
    ensures var fs := Fastest(s, 4);
            var e := Next(After(s, fs));
            Counting(s, fs) && Step(After(s, fs), e).wiped && Clock(e) == Some((s.failTime + 93300) as real)
  {
    FastestAfter(s, 4);
    NextCounts(After(s, Fastest(s, 4)));
    ServedAll();
    assert Served(8) == Served(7) + LockSeconds(7);
  }

  /** And never earlier. */
  lemma NoneIsFaster(s: State, fs: seq<Event>, e: Event)
    requires 0 <= s.failTime && s.failCount == 3 && Counting(s, fs) && Step(After(s, fs), e).wiped
    ensures Clock(e).Some? && Clock(e).value >= (s.failTime + 93300) as real
  {
    AfterIsLate(s, fs);
    ServedAll();
    assert Served(8) == Served(7) + LockSeconds(7);
  }

  lemma WipesOnTimeIff(s: State, third: real)
    requires 0 <= s.failTime && s.failCount == 3
    ensures WipesOnTime(s, third) <==> s.failTime as real >= third
  {
    if s.failTime as real >= third {
      forall fs, e | Counting(s, fs) && Step(After(s, fs), e).wiped
        ensures Clock(e).Some? && Clock(e).value >= third + 93300.0
      {
        NoneIsFaster(s, fs, e);
      }
    } else {
      BoundIsMet(s);
    }
  }

  /** In every reachable state right after a third counted failure: no continuation wipes earlier than 93300 seconds
      after that failure, exactly when it falls on a whole second or not after the fail time already stored. */
  lemma ThirdFailure(es: seq<Event>, e: Event)
    requires Run(es).s.failCount == 2 && Run(es + [e]).s.failCount == 3
    ensures Clock(e).Some? && Run(es + [e]).third == Clock(e)
    ensures var third := Clock(e).value;
            && (WipesOnTime(Run(es + [e]).s, third) <==> Run(es + [e]).s.failTime as real >= third)
            && (WipesOnTime(Run(es + [e]).s, third) <==>
                  third.Floor as real == third || third <= Run(es).s.failTime as real)
  {
    RunIsLate(es);
    assert (es + [e])[..|es|] == es;
    WipesOnTimeIff(Run(es + [e]).s, Clock(e).value);
  }

  /** A run that fails it: two failures at 10 seconds and the third at 10.5. */
  lemma HalfASecondEarly(stored: Pin, p: Pin, q: Pin, r: Pin)
    requires stored !in [p, q, r] && p != q && p != r && q != r
    ensures var es := [ForceSet(stored), Attempt(p, 10.0), Attempt(q, 10.0), Attempt(r, 10.5)];
            Run(es).third == Some(10.5) && !WipesOnTime(Run(es).s, 10.5)
  {
    var e0, e1, e2 := [ForceSet(stored)], [ForceSet(stored), Attempt(p, 10.0)],
      [ForceSet(stored), Attempt(p, 10.0), Attempt(q, 10.0)];
    var es := e2 + [Attempt(r, 10.5)];
    assert e0[..0] == [] && e1[..1] == e0 && e2[..2] == e1 && es[..3] == e2;
    assert Run(e0) == Watched(State(0, 0, Some(stored), []), None);
    assert Run(e1) == Watched(State(1, 10, Some(stored), [p]), None);
    assert Run(e2) == Watched(State(2, 10, Some(stored), [p, q]), None);
    assert es == [ForceSet(stored), Attempt(p, 10.0), Attempt(q, 10.0), Attempt(r, 10.5)];
    ThirdFailure(e2, Attempt(r, 10.5));
  }

  // ---------------------------------------------------------------- fail count and failed PINs

  predicate Distinct(s: seq<Pin>) {
    forall i, j :: 0 <= i < j < |s| ==> s[i] != s[j]
  }

  /** The fail count is the number of distinct PINs that have failed. */
  predicate InSync(s: State) {
    s.failCount == |s.failedPins| && Distinct(s.failedPins)
  }

  lemma {:induction false} DistinctCount(s: seq<Pin>)
    ensures |set p | p in s| <= |s|
    ensures Distinct(s) <==> |set p | p in s| == |s|
  {
    if s == [] {
    } else {
      var n := |s| - 1;
      DistinctCount(s[..n]);
      var rest := set p | p in s[..n];
      assert s == s[..n] + [s[n]];
      assert (set p | p in s) == rest + {s[n]};
      if s[n] in rest {
        var i :| 0 <= i < n && s[i] == s[n];
        assert (set p | p in s) == rest;
      } else {
        assert Distinct(s[..n]) ==> Distinct(s);
      }
      assert Distinct(s) ==> Distinct(s[..n]);
    }
  }

  /** In sync means that no PIN is listed twice and the fail count is the number of PINs listed. */
  lemma InSyncCounts(s: State)
    ensures InSync(s) <==> s.failCount == |s.failedPins| == |set p | p in s.failedPins|
  {
    DistinctCount(s.failedPins);
  }

  /** Exactly these events make the two differ: a restart while failures are counted, the wipe after the eighth, and a
      wipe on request while PINs are remembered. */
  lemma StepInSync(s: State, e: Event)
    requires InSync(s)
    ensures InSync(Step(s, e).state) <==>
              !(e.Restart? && s.failCount > 0) && !Step(s, e).wiped && !(e.WipeRequest? && s.failedPins != [])
  {
  }

  /** A success or a new PIN brings them back together. */
  lemma SuccessInSync(s: State, e: Event)
    requires Step(s, e).ok
    ensures InSync(Step(s, e).state) && Step(s, e).state.failCount == 0 && Step(s, e).state.failTime == 0
  {
  }

  predicate NoRestartOrWipe(es: seq<Event>) {
    |es| > 0 ==>
      && NoRestartOrWipe(es[..|es| - 1])
      && !es[|es| - 1].Restart? && !es[|es| - 1].WipeRequest? && !Step(Run(es[..|es| - 1]).s, es[|es| - 1]).wiped
  }

  lemma {:induction false} RunInSync(es: seq<Event>)
    requires NoRestartOrWipe(es)
    ensures InSync(Run(es).s)
  {
    if es == [] {
    } else {
      RunInSync(es[..|es| - 1]);
      StepInSync(Run(es[..|es| - 1]).s, es[|es| - 1]);
    }
  }

  // ---------------------------------------------------------------- the class

  class WalletManager {
    var pinFailCount: nat
    var pinFailTime: int
    var pin: Option<Pin>
    var failedPins: seq<Pin>

    constructor ()
      ensures Value() == Fresh()
    {
      pinFailCount, pinFailTime, pin, failedPins := 0, 0, None, [];
    }

    function Value(): State
      reads this
    {
      State(pinFailCount, pinFailTime, pin, failedPins)
    }

    method AuthenticationSuccess()
      modifies this
      ensures Value() == Reset(old(Value()))
    {
      failedPins := [];
      pinFailTime := 0;
      pinFailCount := 0;
    }

    /** wipeWallet, as far as the PIN is concerned. */
    method WipeWallet()
      modifies this
      ensures Value() == Wipe(old(Value()))
    {
      pinFailTime := 0;
      pinFailCount := 0;
      pin := None;
    }

    /** authenticate(pin:); `wiped` reports whether the attempt wiped the wallet. */
    method AuthenticatePin(attempt: Pin, secureTime: real) returns (ok: bool, wiped: bool)
      modifies this
      ensures Outcome(Value(), ok, wiped) == Authenticate(old(Value()), attempt, secureTime)
    {
      var failCount := pinFailCount;
      if failCount >= 3 {
        var failTime := pinFailTime;
        if secureTime < (failTime + LockSeconds(failCount)) as real { return false, false; }
      }
      if attempt !in failedPins {
        failCount := failCount + 1;
        pinFailCount := failCount;
      }
      if Some(attempt) == pin {
        AuthenticationSuccess();
        return true, false;
      } else if attempt !in failedPins {
        failedPins := failedPins + [attempt];
        if failCount >= LIMIT {
          WipeWallet();
          return false, true;
        }
        if secureTime > pinFailTime as real {
          pinFailTime := secureTime.Floor;
        }
      }
      return false, false;
    }

    /** changePin(newPin:pin:). */
    method ChangePin(newPin: Pin, attempt: Pin, secureTime: real) returns (ok: bool, wiped: bool)
      modifies this
      ensures Outcome(Value(), ok, wiped) == Step(old(Value()), Change(newPin, attempt, secureTime))
    {
      ok, wiped := AuthenticatePin(attempt, secureTime);
      if ok { pin := Some(newPin); }
    }

    /** forceSetPin(newPin:seedPhrase:); `phraseOk` is None without a phrase, or whether the phrase is the right one. */
    method ForceSetPin(newPin: Pin, phraseOk: Option<bool>, secureTime: real) returns (ok: bool, wiped: bool)
      modifies this
      ensures Outcome(Value(), ok, wiped) ==
              if phraseOk == Some(false) then Outcome(old(Value()), false, false)
              else if phraseOk == None && old(pin).Some? then Step(old(Value()), Attempt(newPin, secureTime))
              else Step(old(Value()), ForceSet(newPin))
    {
      if phraseOk.Some? {
        if !phraseOk.value { return false, false; }
      } else if pin.Some? {
        ok, wiped := AuthenticatePin(newPin, secureTime);
        return;
      }
      pin := Some(newPin);
      AuthenticationSuccess();
      return true, false;
    }

    /** walletDisabledUntil. */
    method WalletDisabledUntil() returns (t: real)
      ensures t == DisabledUntil(Value())
    {
      if pinFailCount < 3 { return 0.0; }
      return (pinFailTime + LockSeconds(pinFailCount)) as real;
    }

    /** pinAttemptsRemaining. */
    method PinAttemptsRemaining() returns (n: int)
      ensures n == 8 - Value().failCount
    {
      return 8 - pinFailCount;
    }
  }
}
