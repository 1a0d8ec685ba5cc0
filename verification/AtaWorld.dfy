/** A trace of port accesses played against the device. */
module AtaWorld {
  import opened Words
  import opened AtaStatus
  import opened AtaWire
  import opened AtaDevice

  // One access: time passes, then the command or the transfer, if it is one.
  function OnEvent(w: World, before: Wire, e: Event, ch: Choice): World {
    var w1, after := w.(dev := Settle(w.dev, ch)), Take(before, e);
    if |after.acts| == |before.acts| then w1 else OnAct(w1, after.acts[|after.acts| - 1])
  }

  function After(w0: World, trace: seq<Event>, chs: nat -> Choice): World {
    if trace == [] then w0
    else
      var n := |trace| - 1;
      OnEvent(After(w0, trace[..n], chs), Decode(trace[..n]), trace[n], chs(n))
  }

  lemma AfterOne(w0: World, t: seq<Event>, e: Event, chs: nat -> Choice)
    ensures After(w0, t + [e], chs) == OnEvent(After(w0, t, chs), Decode(t), e, chs(|t|))
  {
    assert (t + [e])[..|t|] == t;
  }

  lemma {:induction false} ActsGrow(t: seq<Event>, t': seq<Event>)
    requires t <= t'
    ensures Decode(t).acts <= Decode(t').acts
    decreases |t'|
  {
    if t != t' {
      var init := t'[..|t'| - 1];
      ActsGrow(t, init);
      assert Decode(t') == Take(Decode(init), t'[|t'| - 1]);
    }
  }

  // Nothing but time has passed.
  ghost predicate Waited(w: World, w': World) { w'.mem == w.mem && Later(w.dev, w'.dev) }

  lemma {:induction false} SameActs(w0: World, t: seq<Event>, t': seq<Event>, chs: nat -> Choice)
    requires t <= t' && Decode(t').acts == Decode(t).acts
    ensures Waited(After(w0, t, chs), After(w0, t', chs))
    decreases |t'|
  {
    if t != t' {
      var n := |t'| - 1;
      var init := t'[..n];
      ActsGrow(t, init);
      ActsGrow(init, t');
      SameActs(w0, t, init, chs);
      SettleLater(After(w0, init, chs).dev, chs(n));
      LaterTwice(After(w0, t, chs).dev, After(w0, init, chs).dev, After(w0, t', chs).dev);
    }
  }

  // One act by a device that was not busy, and time.
  lemma {:induction false} OneAct(w0: World, t: seq<Event>, t': seq<Event>, a: Act, chs: nat -> Choice)
    requires t <= t' && Decode(t').acts == Decode(t).acts + [a] && !Busy(After(w0, t, chs).dev.phase)
    ensures Waited(OnAct(After(w0, t, chs), a), After(w0, t', chs))
    decreases |t'|
  {
    var n := |t'| - 1;
    assert t != t';
    var init := t'[..n];
    ActsGrow(t, init);
    ActsGrow(init, t');
    if |Decode(init).acts| == |Decode(t).acts| {
      assert Decode(init).acts == Decode(t).acts;
      SameActs(w0, t, init, chs);
    } else {
      assert Decode(init).acts == Decode(t').acts;
      OneAct(w0, t, init, a, chs);
      SettleLater(After(w0, init, chs).dev, chs(n));
      LaterTwice(OnAct(After(w0, t, chs), a).dev, After(w0, init, chs).dev, After(w0, t', chs).dev);
    }
  }

  // ---- The statuses in a trace ----

  predicate IsStatus(e: Event) { e.AltIn? || e.StatusIn? || e.IrqStatusIn? }

  // Every status read in the trace is allowed where it is read.
  ghost predicate Shows(ok: (Phase, u8) -> bool, w0: World, trace: seq<Event>, chs: nat -> Choice) {
    trace == [] ||
    var init, e := trace[..|trace| - 1], trace[|trace| - 1];
    Shows(ok, w0, init, chs) && (IsStatus(e) ==> ok(After(w0, trace, chs).dev.phase, e.st))
  }

  lemma {:induction false} ShowsPrefix(ok: (Phase, u8) -> bool, w0: World, t: seq<Event>, t': seq<Event>,
                                       chs: nat -> Choice)
    requires t <= t' && Shows(ok, w0, t', chs)
    ensures Shows(ok, w0, t, chs)
    decreases |t'|
  {
    if t != t' { ShowsPrefix(ok, w0, t, t'[..|t'| - 1], chs); }
  }

  lemma ShowsLast(ok: (Phase, u8) -> bool, w0: World, t: seq<Event>, e: Event, chs: nat -> Choice)
    requires Shows(ok, w0, t + [e], chs) && IsStatus(e)
    ensures ok(After(w0, t + [e], chs).dev.phase, e.st)
  {
    assert (t + [e])[..|t|] == t;
  }

  lemma ShowsMore(ok: (Phase, u8) -> bool, w0: World, t: seq<Event>, e: Event, chs: nat -> Choice)
    requires Shows(ok, w0, t, chs) && (IsStatus(e) ==> ok(After(w0, t + [e], chs).dev.phase, e.st))
    ensures Shows(ok, w0, t + [e], chs)
  {
    assert (t + [e])[..|t|] == t;
  }

  // A status that reports no failure shows DRQ only when the device is offering data.
  predicate Candid(p: Phase, st: u8) { !Bad(st) && Drq(st) ==> Offering(p) }

  // BSY and DRQ together, and no failure.
  predicate Confusing(st: u8) { !Bad(st) && Bsy(st) && Drq(st) }

  ghost predicate NoneConfusing(trace: seq<Event>) { forall e | e in trace && IsStatus(e) :: !Confusing(e.st) }

  // What an honest device must not do to be candid, status by status: show DRQ with BSY.
  lemma CandidIff(p: Phase, st: u8)
    requires Honest(p, st)
    ensures Candid(p, st) <==> !Confusing(st)
  {
  }

  lemma {:induction false} HonestIsCandidIff(w0: World, trace: seq<Event>, chs: nat -> Choice)
    requires Shows(Honest, w0, trace, chs)
    ensures Shows(Candid, w0, trace, chs) <==> NoneConfusing(trace)
  {
    if trace != [] {
      var init, e := trace[..|trace| - 1], trace[|trace| - 1];
      assert trace == init + [e];
      HonestIsCandidIff(w0, init, chs);
      if IsStatus(e) { CandidIff(After(w0, trace, chs).dev.phase, e.st); }
    }
  }

  lemma CandidLater(d: Dev, d': Dev, st: u8)
    requires Later(d, d') && Candid(d.phase, st)
    ensures Candid(d'.phase, st)
  {
  }
}
