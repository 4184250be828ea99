/** What client/FrameDecider.c decides, said by scanning the peers' own tables: no trees,
    no signature lists, no masters. */
module FrameTables {
  import opened Wrappers
  import opened Lists

  type PeerId = nat
  type Mac = s: seq<byte> | |s| == 6 witness [0, 0, 0, 0, 0, 0]
  /** An IPv4 address, most significant byte first. */
  type Group = x: int | 0 <= x < 0x1_0000_0000
  type Sig = nat
  datatype Member = Member(peer: PeerId, group: Group)

  // ----- signatures

  const SIG_LIMIT: nat := 0x80_0000

  /** The last 23 bits of the group address. */
  function GroupSig(g: Group): Sig {
    g % SIG_LIMIT
  }

  /** The last 23 bits of the Ethernet address. */
  function MacSig(m: Mac): Sig {
    (m[2] as int * 0x100_0000 + m[3] as int * 0x1_0000 + m[4] as int * 0x100 + m[5] as int) % SIG_LIMIT
  }

  predicate IsMulticast(m: Mac) {
    m[..3] == [0x01, 0x00, 0x5e]
  }

  const BROADCAST: Mac := [0xff, 0xff, 0xff, 0xff, 0xff, 0xff]

  /** Section 6.4 of RFC 1112: the low 23 bits of the group behind 01-00-5E. */
  function GroupMac(g: Group): Mac {
    [0x01, 0x00, 0x5e, g / 0x1_0000 % 0x80, g / 0x100 % 0x100, g % 0x100]
  }

  lemma MacBits(m: Mac)
    requires IsMulticast(m)
    ensures MacSig(m) == m[3] as int % 0x80 * 0x1_0000 + m[4] as int * 0x100 + m[5] as int
  {
    assert m[2] == m[..3][2];
    var hi := m[3] as int;
    assert hi % 0x80 == hi || hi % 0x80 == hi - 0x80;
  }

  lemma SameDigits(a: nat, b: nat, c: nat, x: nat, y: nat, z: nat)
    requires b < 0x100 && c < 0x100 && y < 0x100 && z < 0x100
    ensures a * 0x1_0000 + b * 0x100 + c == x * 0x1_0000 + y * 0x100 + z <==> a == x && b == y && c == z
  {
  }

  /** A multicast frame's signature finds exactly the groups that RFC 1112 maps to its
      address, once the bit the standard keeps zero is ignored. */
  lemma SigIsMapping(m: Mac, g: Group)
    requires IsMulticast(m)
    ensures MacSig(m) == GroupSig(g) <==> GroupMac(g) == m[3 := m[3] % 0x80]
  {
    MacBits(m);
    GroupBits(g);
    GroupDigits(m, g);
    hide MacSig, GroupMac, GroupSig, IsMulticast;
    var a, b, c := g / 0x1_0000 % 0x80, g / 0x100 % 0x100, g % 0x100;
    SameDigits(m[3] as int % 0x80, m[4], m[5], a, b, c);
  }

  lemma GroupDigits(m: Mac, g: Group)
    requires IsMulticast(m)
    ensures GroupMac(g) == m[3 := m[3] % 0x80] <==>
              g / 0x1_0000 % 0x80 == m[3] % 0x80 && g / 0x100 % 0x100 == m[4] && g % 0x100 == m[5]
  {
    var n, x := m[3 := m[3] % 0x80], GroupMac(g);
    assert m[0] == m[..3][0] && m[1] == m[..3][1] && m[2] == m[..3][2];
    if n == x {
      assert n[3] == x[3] && n[4] == x[4] && n[5] == x[5];
    }
  }

  lemma GroupBits(g: Group)
    ensures GroupSig(g) == g / 0x1_0000 % 0x80 * 0x1_0000 + g / 0x100 % 0x100 * 0x100 + g % 0x100
  {
    var hi, mid := g / 0x1_0000, g / 0x100;
    assert g == mid * 0x100 + g % 0x100;
    assert mid == hi * 0x100 + mid % 0x100;
    assert hi == hi / 0x80 * 0x80 + hi % 0x80;
    Remainder(g, hi / 0x80, hi % 0x80 * 0x1_0000 + mid % 0x100 * 0x100 + g % 0x100);
  }

  lemma Remainder(g: nat, q: nat, r: nat)
    requires g == q * SIG_LIMIT + r && r < SIG_LIMIT
    ensures g % SIG_LIMIT == r
  {
  }

  // ----- MAC tables: per peer, least recently used first

  type Macs = map<PeerId, seq<Mac>>

  ghost predicate MacsOk(t: Macs, max: nat) {
    && (forall p :: p in t ==> NoDup(t[p]) && |t[p]| <= max)
    && (forall p, q, m :: p in t && q in t && m in t[p] && m in t[q] ==> p == q)
  }

  /** The tables after a frame from `m` through peer `p`: the address moves to `p`, behind all
      others, and if it is new and the table full the least recently used one goes. */
  function SeeMac(t: Macs, max: nat, p: PeerId, m: Mac): Macs
    requires p in t && 0 < max
  {
    if m in t[p] then t[p := Without(t[p], m) + [m]]
    else SeeNew(Forgotten(t, m), max, p, m)
  }

  function Forgotten(t: Macs, m: Mac): (r: Macs)
    ensures r.Keys == t.Keys
  {
    map q | q in t :: Without(t[q], m)
  }

  function SeeNew(t: Macs, max: nat, p: PeerId, m: Mac): Macs
    requires p in t && 0 < max
  {
    t[p := (if |t[p]| >= max then t[p][1..] else t[p]) + [m]]
  }

  lemma ForgottenKeeps(t: Macs, max: nat, m: Mac)
    requires MacsOk(t, max)
    ensures var u := Forgotten(t, m);
            && MacsOk(u, max)
            && (forall q, x :: q in t ==> (x in u[q] <==> x in t[q] && x != m))
            && (forall q :: q in t && m !in t[q] ==> u[q] == t[q])
  {
  }

  lemma SeeNewKeeps(t: Macs, max: nat, p: PeerId, m: Mac)
    requires MacsOk(t, max) && p in t && 0 < max && forall q :: q in t ==> m !in t[q]
    ensures var r := SeeNew(t, max, p, m);
            && MacsOk(r, max) && r.Keys == t.Keys && m in r[p]
            && (forall q, x :: q in r && x in r[q] && x != m ==> x in t[q])
            && (forall q, x :: q in t && x in t[q] && x !in r[q] ==> q == p && |t[p]| == max && x == t[p][0])
  {
    if |t[p]| == max {
      assert t[p] == [t[p][0]] + t[p][1..];
      assert forall x :: x in t[p] <==> x == t[p][0] || x in t[p][1..];
    }
  }

  /** An address leaves a table only when another peer sends from it, or as the least
      recently used of a full table when its peer sends from a new one. */
  lemma SeeMacKeeps(t: Macs, max: nat, p: PeerId, m: Mac)
    requires MacsOk(t, max) && p in t && 0 < max
    ensures var r := SeeMac(t, max, p, m);
            && MacsOk(r, max) && r.Keys == t.Keys && m in r[p]
            && (forall q, x :: q in r && x in r[q] && x != m ==> x in t[q])
            && (forall q, x :: q in t && x in t[q] && x !in r[q] ==>
                  if q == p then |t[p]| == max && x == t[p][0] && m !in t[p] else x == m)
  {
    if m !in t[p] {
      ForgottenKeeps(t, max, m);
      SeeNewKeeps(Forgotten(t, m), max, p, m);
      hide Forgotten, SeeNew, MacsOk;
    }
  }

  datatype MacEvent = Sees(peer: PeerId, mac: Mac) | PeerInit(peer: PeerId) | PeerFree(peer: PeerId)

  predicate MacEnabled(t: Macs, e: MacEvent) {
    e.PeerInit? <==> e.peer !in t
  }

  function MacStep(t: Macs, max: nat, e: MacEvent): Macs
    requires MacEnabled(t, e) && 0 < max
  {
    match e
    case Sees(p, m) => SeeMac(t, max, p, m)
    case PeerInit(p) => t[p := []]
    case PeerFree(p) => t - {p}
  }

  ghost predicate MacLegal(max: nat, es: seq<MacEvent>)
    requires 0 < max
    decreases |es|, 0
  {
    es != [] ==> MacLegal(max, es[..|es| - 1]) && MacEnabled(MacRun(max, es[..|es| - 1]), es[|es| - 1])
  }

  ghost function MacRun(max: nat, es: seq<MacEvent>): Macs
    requires 0 < max && MacLegal(max, es)
    decreases |es|, 1
  {
    if es == [] then map[] else MacStep(MacRun(max, es[..|es| - 1]), max, es[|es| - 1])
  }

  /** When the address was last sent from, or -1. */
  function LastSeen(es: seq<MacEvent>, m: Mac): (k: int)
    ensures -1 <= k < |es|
    ensures k >= 0 ==> es[k].Sees? && es[k].mac == m
  {
    if es == [] then -1
    else
      var e := es[|es| - 1];
      if e.Sees? && e.mac == m then |es| - 1 else LastSeen(es[..|es| - 1], m)
  }

  /** All of the list were last sent from by `p`, the earliest first. */
  ghost predicate InSendOrder(es: seq<MacEvent>, p: PeerId, list: seq<Mac>) {
    list != [] ==>
      && LastSeen(es, list[0]) >= 0 && es[LastSeen(es, list[0])].peer == p
      && (forall x :: x in list[1..] ==> LastSeen(es, list[0]) < LastSeen(es, x))
      && InSendOrder(es, p, list[1..])
  }

  lemma {:induction false} OrderWithout(es: seq<MacEvent>, p: PeerId, list: seq<Mac>, m: Mac)
    requires InSendOrder(es, p, list)
    ensures InSendOrder(es, p, Without(list, m))
  {
    if list != [] {
      OrderWithout(es, p, list[1..], m);
      var rest := Without(list[1..], m);
      if list[0] != m { assert ([list[0]] + rest)[1..] == rest; }
    }
  }

  lemma {:induction false} OrderLater(es: seq<MacEvent>, e: MacEvent, p: PeerId, list: seq<Mac>)
    requires InSendOrder(es, p, list) && (e.Sees? ==> e.mac !in list)
    ensures InSendOrder(es + [e], p, list)
  {
    if list != [] {
      OrderLater(es, e, p, list[1..]);
      assert (es + [e])[..|es + [e]| - 1] == es;
      assert forall x :: x in list ==> LastSeen(es + [e], x) == LastSeen(es, x);
    }
  }

  lemma {:induction false} OrderAppend(es: seq<MacEvent>, p: PeerId, list: seq<Mac>, m: Mac)
    requires InSendOrder(es, p, list) && m !in list
    requires LastSeen(es, m) == |es| - 1 >= 0 && es[|es| - 1].peer == p
    ensures InSendOrder(es, p, list + [m])
  {
    if list == [] {
      assert (list + [m])[1..] == [];
    } else {
      OrderAppend(es, p, list[1..], m);
      assert (list + [m])[1..] == list[1..] + [m];
      NotLast(es, list[0], m);
    }
  }

  lemma NotLast(es: seq<MacEvent>, x: Mac, m: Mac)
    requires es != [] && LastSeen(es, m) == |es| - 1 && x != m
    ensures LastSeen(es, x) < |es| - 1
  {
  }

  ghost predicate AllInOrder(es: seq<MacEvent>, t: Macs) {
    forall p :: p in t ==> InSendOrder(es, p, t[p])
  }

  lemma StepInOrder(es: seq<MacEvent>, t: Macs, max: nat, e: MacEvent)
    requires 0 < max && MacsOk(t, max) && AllInOrder(es, t) && MacEnabled(t, e)
    ensures MacsOk(MacStep(t, max, e), max) && AllInOrder(es + [e], MacStep(t, max, e))
  {
    var r := MacStep(t, max, e);
    if e.Sees? { SeeMacKeeps(t, max, e.peer, e.mac); }
    forall p | p in r ensures InSendOrder(es + [e], p, r[p]) {
      if e.Sees? {
        SeenInOrder(es, t, max, e, p);
      } else if p in t {
        OrderLater(es, e, p, t[p]);
      }
    }
  }

  /** The owner of an address is the peer that last sent from it, and each peer's table is in
      the order of these last frames, over any run of frames, arrivals and departures. */
  lemma {:induction false} OwnerIsLastSender(max: nat, es: seq<MacEvent>)
    requires 0 < max && MacLegal(max, es)
    ensures MacsOk(MacRun(max, es), max) && AllInOrder(es, MacRun(max, es))
    ensures forall p, m :: p in MacRun(max, es) && m in MacRun(max, es)[p] ==>
              LastSeen(es, m) >= 0 && es[LastSeen(es, m)].peer == p
  {
    hide MacStep, InSendOrder, LastSeen, MacsOk;
    if es == [] {
      NoMacs(max);
    } else {
      var init, e := es[..|es| - 1], es[|es| - 1];
      OwnerIsLastSender(max, init);
      StepInOrder(init, MacRun(max, init), max, e);
      assert es == init + [e];
    }
    var t := MacRun(max, es);
    forall p, m | p in t && m in t[p] ensures LastSeen(es, m) >= 0 && es[LastSeen(es, m)].peer == p {
      OrderedOwner(es, p, t[p], m);
    }
  }

  lemma NoMacs(max: nat)
    ensures MacsOk(map[], max)
  {
  }

  lemma {:induction false} OrderedOwner(es: seq<MacEvent>, p: PeerId, list: seq<Mac>, m: Mac)
    requires InSendOrder(es, p, list) && m in list
    ensures LastSeen(es, m) >= 0 && es[LastSeen(es, m)].peer == p
  {
    if m != list[0] { OrderedOwner(es, p, list[1..], m); }
  }

  lemma SeenInOrder(es: seq<MacEvent>, t: Macs, max: nat, e: MacEvent, p: PeerId)
    requires MacsOk(t, max) && 0 < max && e.Sees? && e.peer in t && p in t && InSendOrder(es, p, t[p])
    ensures InSendOrder(es + [e], p, SeeMac(t, max, e.peer, e.mac)[p])
  {
    var list := Without(t[p], e.mac);
    OrderWithout(es, p, t[p], e.mac);
    if p == e.peer {
      var kept := if e.mac !in t[p] && |list| >= max then list[1..] else list;
      OrderLater(es, e, p, kept);
      OrderAppend(es + [e], p, kept, e.mac);
    } else {
      OrderLater(es, e, p, list);
    }
  }

  // ----- group tables

  type Groups = map<PeerId, seq<Group>>

  predicate InTable(t: Groups, m: Member) {
    m.peer in t && m.group in t[m.peer]
  }

  ghost predicate GroupsOk(t: Groups, max: nat) {
    forall p :: p in t ==> NoDup(t[p]) && |t[p]| <= max
  }

  /** The tables after peer `p` reports group `g`. */
  function Join(t: Groups, max: nat, p: PeerId, g: Group): Groups
    requires p in t && 0 < max
  {
    if g in t[p] then t[p := Without(t[p], g) + [g]]
    else t[p := (if |t[p]| >= max then t[p][1..] else t[p]) + [g]]
  }

  /** The group is the peer's latest; the earliest goes if it is new and the table full; the
      others stay in order. */
  lemma JoinKeeps(t: Groups, max: nat, p: PeerId, g: Group)
    requires GroupsOk(t, max) && p in t && 0 < max
    ensures var r := Join(t, max, p, g);
            && GroupsOk(r, max) && r.Keys == t.Keys && r - {p} == t - {p}
            && r[p] != [] && r[p][|r[p]| - 1] == g
            && r[p][..|r[p]| - 1] == if g !in t[p] && |t[p]| == max then t[p][1..] else Without(t[p], g)
  {
    hide Without;
    var r := Join(t, max, p, g);
    var kept := r[p][..|r[p]| - 1];
    assert r[p] == kept + [g];
    if g !in t[p] && |t[p]| == max { assert g !in t[p][1..] && NoDup(t[p][1..]); }
    NoDupAppend(kept, g);
  }

  function JoinAll(t: Groups, max: nat, p: PeerId, joins: seq<Group>): (r: Groups)
    requires p in t && 0 < max
    ensures r.Keys == t.Keys
  {
    if joins == [] then t
    else Join(JoinAll(t, max, p, joins[..|joins| - 1]), max, p, joins[|joins| - 1])
  }

  lemma {:induction false} WithoutFront(x: seq<Group>, rest: seq<Group>, g: Group)
    requires g !in rest
    ensures Without(x + rest, g) == Without(x, g) + rest
  {
    hide NoDup, Without;
    if x == [] {
      assert x + rest == rest;
    } else {
      WithoutFront(x[1..], rest, g);
      WithoutFirst(x, g);
      WithoutFirst(x + rest, g);
      assert (x + rest)[1..] == x[1..] + rest;
    }
  }

  lemma WithoutFirst(x: seq<Group>, g: Group)
    requires x != []
    ensures Without(x, g) == (if x[0] == g then [] else [x[0]]) + Without(x[1..], g)
  {
  }

  /** A list that ends with `tail`. */
  predicate Ends(list: seq<Group>, tail: seq<Group>) {
    |tail| <= |list| && list[|list| - |tail|..] == tail
  }

  lemma EndsAppend(x: seq<Group>, tail: seq<Group>, g: Group)
    ensures Ends(x + tail + [g], tail + [g])
  {
    assert x + tail + [g] == x + (tail + [g]);
  }

  lemma JoinEnds(t: Groups, max: nat, p: PeerId, tail: seq<Group>, g: Group)
    requires GroupsOk(t, max) && p in t && 0 < max && Ends(t[p], tail) && g !in tail && |tail| < max
    ensures GroupsOk(Join(t, max, p, g), max) && Ends(Join(t, max, p, g)[p], tail + [g])
  {
    JoinKeeps(t, max, p, g);
    hide NoDup, Without, Join, GroupsOk, Ends;
    var list, r := t[p], Join(t, max, p, g)[p];
    var x := TailOf(list, tail);
    var y := Without(x, g);
    if g !in list && |list| == max {
      y := x[1..];
      assert (x + tail)[1..] == y + tail;
    } else {
      WithoutFront(x, tail, g);
    }
    EndsAppend(y, tail, g);
    LastOf(r, y + tail, g);
  }

  lemma LastOf(list: seq<Group>, kept: seq<Group>, g: Group)
    requires list != [] && list[..|list| - 1] == kept && list[|list| - 1] == g
    ensures list == kept + [g]
  {
  }

  lemma TailOf(list: seq<Group>, tail: seq<Group>) returns (x: seq<Group>)
    requires Ends(list, tail)
    ensures list == x + tail
  {
    x := list[..|list| - |tail|];
  }

  /** What a peer reports in one frame, each group once and no more than it may have, is in its
      table afterwards, last and in that order. */
  lemma {:induction false} JoinAllLast(t: Groups, max: nat, p: PeerId, joins: seq<Group>)
    requires GroupsOk(t, max) && p in t && 0 < max && NoDup(joins) && |joins| <= max
    ensures GroupsOk(JoinAll(t, max, p, joins), max) && Ends(JoinAll(t, max, p, joins)[p], joins)
  {
    hide NoDup, Join, GroupsOk;
    if joins != [] {
      var init, g := joins[..|joins| - 1], joins[|joins| - 1];
      LastIsNew(joins);
      JoinAllLast(t, max, p, init);
      hide Ends;
      JoinEnds(JoinAll(t, max, p, init), max, p, init, g);
      assert joins == init + [g];
    }
  }

  lemma LastIsNew(joins: seq<Group>)
    requires NoDup(joins) && joins != []
    ensures joins[|joins| - 1] !in joins[..|joins| - 1] && NoDup(joins[..|joins| - 1])
  {
  }

  function Leave(t: Groups, m: Member): Groups
    requires m.peer in t
  {
    t[m.peer := Without(t[m.peer], m.group)]
  }

  // ----- decisions

  /** A frame from the local device, with what the IGMP parser finds in it: whether it is
      IGMP, and the group of a group-specific query. */
  datatype Frame = Short | Ethernet(dest: Mac, igmp: bool, query: Option<Group>)

  function PeersOf(ms: seq<Member>): (r: seq<PeerId>)
    ensures |r| == |ms| && forall i :: 0 <= i < |ms| ==> r[i] == ms[i].peer
  {
    seq(|ms|, i requires 0 <= i < |ms| => ms[i].peer)
  }

  /** Exactly the members whose group has the frame's signature, once each. */
  ghost predicate MembersOf(t: Groups, s: Sig, ms: seq<Member>) {
    NoDup(ms) && forall m :: m in ms <==> InTable(t, m) && GroupSig(m.group) == s
  }

  /** A multicast decision returns a peer more than once just when two of its groups have the
      frame's signature. */
  lemma ReturnedTwice(t: Groups, s: Sig, ms: seq<Member>, p: PeerId)
    requires MembersOf(t, s, ms) && p in t
    ensures (exists i, j :: 0 <= i < j < |ms| && PeersOf(ms)[i] == p && PeersOf(ms)[j] == p)
       <==> (exists g, h :: g in t[p] && h in t[p] && g != h && GroupSig(g) == s && GroupSig(h) == s)
  {
    hide GroupSig;
    if i, j :| 0 <= i < j < |ms| && PeersOf(ms)[i] == p && PeersOf(ms)[j] == p {
      assert ms[i] in ms && ms[j] in ms && ms[i] != ms[j];
      assert ms[i].group in t[p] && ms[j].group in t[p];
    }
    if g, h :| g in t[p] && h in t[p] && g != h && GroupSig(g) == s && GroupSig(h) == s {
      assert Member(p, g) in ms && Member(p, h) in ms;
      var i :| 0 <= i < |ms| && ms[i] == Member(p, g);
      var j :| 0 <= j < |ms| && ms[j] == Member(p, h);
      var lo, hi := if i < j then i else j, if i < j then j else i;
      assert PeersOf(ms)[lo] == p && PeersOf(ms)[hi] == p;
    }
  }

  /** The peers a frame goes to: all for broadcast, IGMP and unknown addresses, the owner of
      a known one, and for multicast the members of its group. */
  ghost predicate Decision(peers: seq<PeerId>, macs: Macs, groups: Groups, f: Frame, dests: seq<PeerId>) {
    match f
    case Short => dests == []
    case Ethernet(dest, igmp, _) =>
      if igmp || (forall i :: 0 <= i < 6 ==> dest[i] == 0xff) then dests == peers
      else if IsMulticast(dest) then exists ms :: MembersOf(groups, MacSig(dest), ms) && dests == PeersOf(ms)
      else if exists p :: p in macs && dest in macs[p] then
        exists p :: p in macs && dest in macs[p] && dests == [p]
      else dests == peers
  }

  /** The peers' lists of free and used entries, and the set of members they make up. */
  ghost predicate GroupTables(free: map<PeerId, nat>, used: Groups, members: set<Member>, max: nat) {
    && GroupsOk(used, max) && free.Keys == used.Keys
    && (forall p :: p in used ==> free[p] + |used[p]| == max)
    && (forall m :: m in members <==> InTable(used, m))
  }

  lemma LeaveKeeps(free: map<PeerId, nat>, used: Groups, members: set<Member>, max: nat, m: Member)
    requires GroupTables(free, used, members, max) && m in members
    ensures GroupTables(free[m.peer := free[m.peer] + 1], Leave(used, m), members - {m}, max)
  {
    hide NoDup, Without;
  }

  lemma InsertKeeps(free: map<PeerId, nat>, used: Groups, members: set<Member>, max: nat, m: Member)
    requires GroupTables(free, used, members, max) && m !in members && m.peer in used && free[m.peer] > 0
    ensures GroupTables(free[m.peer := free[m.peer] - 1], used[m.peer := used[m.peer] + [m.group]], members + {m}, max)
  {
    assert m.group !in used[m.peer];
    assert NoDup(used[m.peer] + [m.group]);
    hide NoDup;
  }

  lemma GroupPlaces(free: map<PeerId, nat>, used: Groups, members: set<Member>, max: nat, m: Member)
    requires GroupTables(free, used, members, max) && m in members
    ensures m.peer in used && m.peer in free && m.group in used[m.peer]
  {
  }

  lemma TouchKeeps(free: map<PeerId, nat>, used: Groups, members: set<Member>, max: nat, m: Member)
    requires GroupTables(free, used, members, max) && m in members
    ensures GroupTables(free, used[m.peer := Without(used[m.peer], m.group) + [m.group]], members, max)
  {
    hide GroupTables, GroupsOk, NoDup;
    LeaveKeeps(free, used, members, max, m);
    GroupPlaces(free, used, members, max, m);
    InsertKeeps(free[m.peer := free[m.peer] + 1], Leave(used, m), members - {m}, max, m);
    var f1 := free[m.peer := free[m.peer] + 1];
    assert f1[m.peer := f1[m.peer] - 1] == free;
    assert members - {m} + {m} == members;
    assert Leave(used, m)[m.peer := Without(used[m.peer], m.group) + [m.group]]
        == used[m.peer := Without(used[m.peer], m.group) + [m.group]];
  }
}
