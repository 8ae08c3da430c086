/** Without port discrimination the address index is keyed by addresses with port 0, which Check_ and loading do not
    expect: one or two Add calls on a new manager lead to states in which they fail. */
module AddrManPorts {
  import opened AddrManState
  import opened AddrManInvariant
  import opened AddrManOperations
  import opened AddrManRuns
  import opened AddrManImage
  import opened AddrManRestored
  import AddrManCheck

  /** After the first Add of a routable address the manager has exactly that entry, under id 0. */
  lemma FirstAdd(disc: bool, p: Placement, a: Address, src: NetAddr, penalty: int, now: int, roll: nat)
    requires p.env.routable(a.service.ip)
    ensures var t := Add(Fresh(disc, p), a, src, penalty, now, roll);
      && Inv(t) && t.discriminatePorts == disc && t.p == p && t.nIdCount == 1
      && t.mapInfo.Keys == {0} && t.mapInfo[0].addr == a.service && t.mapAddr.Keys == {t.Key(a.service)}
      && t.mapInfo[0].nTime == Stamp(a.nTime - Penalty(a, src, penalty)) && t.mapInfo[0].nLastTry == 0
  {
    hide Inv, Core;
    AddKeeps(Fresh(disc, p), a, src, penalty, now, roll);
  }

  /** Saving and loading after one Add of an address with a port breaks the index: the entry is there, but is not
      found. */
  lemma LoadingFails(p: Placement, a: Address, src: NetAddr, penalty: int, now: int, roll: nat)
    requires p.env.routable(a.service.ip) && a.service.port != 0
    ensures AllProper(Fresh(false, p), [CallAdd(a, src, penalty, now, roll)])
    ensures var t := Run(Fresh(false, p), [CallAdd(a, src, penalty, now, roll)]);
      && Inv(t) && t.Find(a.service).Some?
      && !RawKeys(t) && !Inv(Restored(t)) && Restored(t).Find(a.service).None?
  {
    hide Inv, Core, Add, Restored;
    var s := Fresh(false, p);
    var t := Add(s, a, src, penalty, now, roll);
    FirstAdd(false, p, a, src, penalty, now, roll);
    assert 0 in t.mapInfo;
    InvParts(t);
    RestoredInvariant(t);
    RestoredUnlinked(t, 0);
    assert LinkOk(t, 0);
  }

  lemma InvParts(s: State)
    requires Inv(s)
    ensures LinksOk(s) && EntriesOk(s)
  {
  }

  /** A second address is entered whatever slot it gets, if the first one was announced without a time. */
  lemma SecondAdd(s: State, a: Address, src: NetAddr, penalty: int, now: int, roll: nat)
    requires Inv(s) && s.nIdCount == 1 && s.mapInfo.Keys == {0} && s.mapInfo[0].nTime == 0 && s.mapInfo[0].nLastTry == 0
    requires s.p.env.routable(a.service.ip) && s.Find(a.service).None?
    ensures var t := Add(s, a, src, penalty, now, roll);
      Inv(t) && t.discriminatePorts == s.discriminatePorts && 1 in t.mapInfo && t.mapInfo[1].addr == a.service
  {
    hide Inv, Core, NoRefs, ClearNew;
    AddKeeps(s, a, src, penalty, now, roll);
    AdmitKeeps(s, a, src, Penalty(a, src, penalty));
    var u := Admit(s, a, src, Penalty(a, src, penalty));
    var b := u.p.NewBucket(a.service, src);
    var q := u.p.Position(true, b, a.service);
    SlotHolder(u, b, q, {1}, 0);
    assert u.mapInfo.Keys == {0, 1};
    assert u.mapInfo[0].IsTerrible(now);
    if u.vvNew[b][q] != 1 {
      assert NoRefs(u, {1}) by { NoneLoose(u); }
      ClearNewKeeps(u, b, q, {1}, 0);
    }
  }

  lemma NoneLoose(u: State)
    requires 1 in u.mapInfo && u.mapInfo[1].nRefCount == 0
    ensures NoRefs(u, {1})
  {
  }

  /** After two Adds of addresses, the second with a port, Check_ reports an error in a sound state. */
  lemma CheckFails(p: Placement, a0: Address, src0: NetAddr, now0: int, roll0: nat, a1: Address, src1: NetAddr,
      penalty: int,
      now1: int, roll1: nat)
    requires p.env.routable(a0.service.ip) && p.env.routable(a1.service.ip) && a0.service.ip != a1.service.ip
    requires a0.nTime == 0 && a1.service.port != 0
    ensures var calls := [CallAdd(a0, src0, 0, now0, roll0), CallAdd(a1, src1, penalty, now1, roll1)];
      && AllProper(Fresh(false, p), calls)
      && var t := Run(Fresh(false, p), calls);
      Inv(t) && !AddrManCheck.RawLookups(t) && !AddrManCheck.Checked(t)
  {
    hide Inv, Core, Add;
    var calls := [CallAdd(a0, src0, 0, now0, roll0), CallAdd(a1, src1, penalty, now1, roll1)];
    var s0 := Fresh(false, p);
    FirstAdd(false, p, a0, src0, 0, now0, roll0);
    var s1 := Add(s0, a0, src0, 0, now0, roll0);
    SecondAdd(s1, a1, src1, penalty, now1, roll1);
    var t := Add(s1, a1, src1, penalty, now1, roll1);
    AddrManCheck.InvariantPasses(t);
    assert calls[1..] == [calls[1]] && calls[1..][1..] == [];
    assert AllProper(s1, calls[1..]) && Run(s1, calls[1..]) == t;
  }
}
