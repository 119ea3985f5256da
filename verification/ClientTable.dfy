/**
  The table of other nodes in user/UserMain.c: entries are made or refreshed by the messages that
  arrive, and age until they are gone. Entry 0 is this node.
 */
module ClientTable {

  const MAX_NUM_ENTRY: nat := 24
  const AGE_COUNT: nat := 3

  /** The fields of a message, or of this node's settings. */
  datatype Info = Info(
    nodeName: string, universe: string, subnet: string, battery: string,
    ecosVer: string, samdVer: string, timoVer: string, sacnUniv: string,
    sortBy: string, crmxPower: string, hostMode: string, protocol: string, ledColor: string)

  datatype Client = Client(ip: string, info: Info, age: nat)

  // ----- the table as a value

  /** What every call keeps: ages of at most 3, and no two live entries for one address. */
  ghost predicate WfTable(list: seq<Client>) {
    && |list| == MAX_NUM_ENTRY
    && (forall i :: 0 <= i < |list| ==> list[i].age <= AGE_COUNT)
    && forall i, j :: 1 <= i < j < |list| && list[i].age > 0 && list[j].age > 0 ==> list[i].ip != list[j].ip
  }

  /** The live entries up to slot n, in the order of their slots. */
  function LiveUpTo(list: seq<Client>, n: nat): (live: seq<Client>)
    requires n <= |list|
    ensures |live| < n || n <= 1
  {
    if n <= 1 then []
    else if list[n - 1].age > 0 then LiveUpTo(list, n - 1) + [list[n - 1]]
    else LiveUpTo(list, n - 1)
  }

  function Live(list: seq<Client>): seq<Client> {
    LiveUpTo(list, |list|)
  }

  function AgeOne(c: Client): Client {
    if c.age > 0 then c.(age := c.age - 1) else c
  }

  /** Every live entry but this node's one step older. */
  function Aged(list: seq<Client>): (r: seq<Client>)
    ensures |r| == |list|
  {
    seq(|list|, i requires 0 <= i < |list| => if i == 0 then list[0] else AgeOne(list[i]))
  }

  /** The slot from i on of the live entry with this address, or the number of slots. */
  function FindLive(list: seq<Client>, ip: string, i: nat): (r: nat)
    requires i <= |list|
    ensures i <= r <= |list| && (r < |list| ==> list[r].age > 0 && list[r].ip == ip)
    ensures forall j :: i <= j < r ==> !(list[j].age > 0 && list[j].ip == ip)
    decreases |list| - i
  {
    if i == |list| || (list[i].age > 0 && list[i].ip == ip) then i else FindLive(list, ip, i + 1)
  }

  /** The first free slot from i on, or the number of slots. */
  function FindFree(list: seq<Client>, i: nat): (r: nat)
    requires i <= |list|
    ensures i <= r <= |list| && (r < |list| ==> list[r].age == 0)
    ensures forall j :: i <= j < r ==> list[j].age > 0
    decreases |list| - i
  {
    if i == |list| || list[i].age == 0 then i else FindFree(list, i + 1)
  }

  /** The slot that a message from another node goes to: its entry, or the first free one, if there is one. */
  function SlotFor(list: seq<Client>, ip: string): (r: nat)
    requires |list| >= 1
    ensures 1 <= r <= |list|
  {
    var live := FindLive(list, ip, 1);
    if live < |list| then live else FindFree(list, 1)
  }

  /** A message from another node. When the table is full, a new node is not entered. */
  function Heard(list: seq<Client>, ip: string, info: Info): (r: seq<Client>)
    requires |list| >= 1
    ensures |r| == |list|
  {
    var s := SlotFor(list, ip);
    if s < |list| then list[s := Client(ip, info, AGE_COUNT)] else list
  }

  lemma AgedWf(list: seq<Client>)
    requires WfTable(list)
    ensures WfTable(Aged(list))
  {
  }

  lemma HeardWf(list: seq<Client>, ip: string, info: Info)
    requires WfTable(list)
    ensures WfTable(Heard(list, ip, info))
  {
  }

  /** Slot i holds the message, at full age, as the only live entry with its address; the others are as before. */
  ghost predicate EnteredAt(before: seq<Client>, after: seq<Client>, ip: string, info: Info, i: nat) {
    && 1 <= i < |before| == |after| && after[i] == Client(ip, info, 3)
    && (forall j :: 1 <= j < |before| && j != i ==>
          after[j] == before[j] && !(after[j].age > 0 && after[j].ip == ip))
    && (if IsLive(before, ip) then before[i].age > 0 && before[i].ip == ip
        else before[i].age == 0 && forall j :: 1 <= j < i ==> before[j].age > 0)
  }

  /** The sender is in the table, or there is a free slot. */
  ghost predicate HasPlace(list: seq<Client>, ip: string) {
    IsLive(list, ip) || exists i :: 1 <= i < |list| && list[i].age == 0
  }

  /**
    A message refreshes the entry of its sender, or makes one in the first free slot; only a new node
    that finds the table full is not entered.
   */
  lemma HeardIsEntered(list: seq<Client>, ip: string, info: Info)
    requires WfTable(list)
    ensures if HasPlace(list, ip)
      then exists i :: EnteredAt(list, Heard(list, ip, info), ip, info, i)
      else Heard(list, ip, info) == list
  {
    var s := SlotFor(list, ip);
    if s < |list| {
      assert EnteredAt(list, Heard(list, ip, info), ip, info, s);
    }
  }

  lemma NoPlace(list: seq<Client>, ip: string)
    requires |list| >= 1
    ensures HasPlace(list, ip) <==> SlotFor(list, ip) < |list|
  {
  }

  /** This node's own entry may change. */
  lemma EntryStays(before: seq<Client>, after: seq<Client>, after2: seq<Client>, ip: string, info: Info)
    requires SameOthers(after, after2)
    ensures (exists i :: EnteredAt(before, after, ip, info, i)) ==> exists i :: EnteredAt(before, after2, ip, info, i)
  {
    if i :| EnteredAt(before, after, ip, info, i) {
      assert EnteredAt(before, after2, ip, info, i);
    }
  }

  // ----- runs

  datatype Event = Ageing | Message(ip: string, info: Info)

  /** me is this node's own address: messages from it are not entered. */
  function Step(list: seq<Client>, me: string, e: Event): (r: seq<Client>)
    requires |list| >= 1
    ensures |r| == |list|
  {
    match e
    case Ageing => Aged(list)
    case Message(ip, info) => if ip == me then list else Heard(list, ip, info)
  }

  function Run(list: seq<Client>, me: string, es: seq<Event>): (r: seq<Client>)
    requires |list| >= 1
    ensures |r| == |list|
  {
    if es == [] then list else Step(Run(list, me, es[..|es| - 1]), me, es[|es| - 1])
  }

  lemma {:induction false} RunWf(list: seq<Client>, me: string, es: seq<Event>)
    requires WfTable(list)
    ensures WfTable(Run(list, me, es))
  {
    if es != [] {
      RunWf(list, me, es[..|es| - 1]);
      var before, e := Run(list, me, es[..|es| - 1]), es[|es| - 1];
      if e.Ageing? {
        AgedWf(before);
      } else if e.ip != me {
        HeardWf(before, e.ip, e.info);
      }
    }
  }

  function Ageings(es: seq<Event>): nat {
    if es == [] then 0 else Ageings(es[..|es| - 1]) + (if es[|es| - 1].Ageing? then 1 else 0)
  }

  predicate Silent(es: seq<Event>, ip: string) {
    forall i :: 0 <= i < |es| ==> !(es[i].Message? && es[i].ip == ip)
  }

  ghost predicate IsLive(list: seq<Client>, ip: string) {
    exists i :: 1 <= i < |list| && list[i].age > 0 && list[i].ip == ip
  }

  /**
    A node that is not heard any more keeps its slot, its fields and its place until the third ageing
    (counted from its last message), whatever other messages arrive, and is gone from then on.
   */
  lemma {:induction false} SilentClientVanishes(list: seq<Client>, me: string, s: nat, es: seq<Event>)
    requires WfTable(list) && 1 <= s < |list| && list[s].age == 3 && Silent(es, list[s].ip)
    ensures Ageings(es) < 3 ==> Run(list, me, es)[s] == list[s].(age := 3 - Ageings(es))
    ensures Ageings(es) >= 3 ==> !IsLive(Run(list, me, es), list[s].ip)
  {
    if es != [] {
      var front, e := es[..|es| - 1], es[|es| - 1];
      SilentClientVanishes(list, me, s, front);
      RunWf(list, me, front);
      StepWhileSilent(Run(list, me, front), me, s, list[s].ip, e);
    }
  }

  lemma StepWhileSilent(list: seq<Client>, me: string, s: nat, ip: string, e: Event)
    requires WfTable(list) && 1 <= s < |list| && !(e.Message? && e.ip == ip)
    ensures list[s].age > 0 && list[s].ip == ip ==>
      Step(list, me, e)[s] == if e.Ageing? then AgeOne(list[s]) else list[s]
    ensures list[s].age == 1 && list[s].ip == ip && e.Ageing? ==> !IsLive(Step(list, me, e), ip)
    ensures !IsLive(list, ip) ==> !IsLive(Step(list, me, e), ip)
  {
    var r := Step(list, me, e);
    if e.Ageing? {
      forall i | 1 <= i < |r| && r[i].age > 0 && r[i].ip == ip
        ensures list[i].age > 1 && list[i].ip == ip
      {
      }
    }
  }

  /** What this node's own entry holds makes no difference to the others. */
  lemma {:induction false} RunIgnoresOwn(list: seq<Client>, list2: seq<Client>, me: string, es: seq<Event>)
    requires |list| >= 1 && SameOthers(list, list2)
    ensures SameOthers(Run(list, me, es), Run(list2, me, es))
  {
    if es != [] {
      var e, a, b := es[|es| - 1], Run(list, me, es[..|es| - 1]), Run(list2, me, es[..|es| - 1]);
      RunIgnoresOwn(list, list2, me, es[..|es| - 1]);
      if e.Message? {
        SameSlot(a, b, e.ip, 1);
      }
    }
  }

  lemma {:induction false} SameSlot(list: seq<Client>, list2: seq<Client>, ip: string, i: nat)
    requires SameOthers(list, list2) && 1 <= i <= |list|
    ensures FindLive(list, ip, i) == FindLive(list2, ip, i) && FindFree(list, i) == FindFree(list2, i)
    decreases |list| - i
  {
    if i < |list| {
      SameSlot(list, list2, ip, i + 1);
    }
  }

  // ----- the table in memory

  /** Entry 0 is not one of those that can be live. */
  lemma {:induction false} LiveIgnoresFirst(list: seq<Client>, list2: seq<Client>, n: nat)
    requires n <= |list| == |list2| && forall i :: 1 <= i < n ==> list2[i] == list[i]
    ensures LiveUpTo(list2, n) == LiveUpTo(list, n)
  {
    if n > 1 {
      LiveIgnoresFirst(list, list2, n - 1);
    }
  }

  /** list and list2 differ at most in this node's own entry. */
  ghost predicate SameOthers(list: seq<Client>, list2: seq<Client>) {
    |list2| == |list| && forall i :: 1 <= i < |list| ==> list2[i] == list[i]
  }

  class Clients {
    /** client_list, client_valid_list with client_valid_num, and sort_array as indices into it. */
    const list: array<Client>
    const valid: array<Client>
    const sorted: array<nat>
    var validNum: nat

    /** Between calls, the valid list is this node and then the live entries in the order of their slots. */
    ghost predicate Valid()
      reads this, list, valid
    {
      && list.Length == valid.Length == sorted.Length == MAX_NUM_ENTRY && list != valid
      && WfTable(list[..])
      && 1 <= validNum <= MAX_NUM_ENTRY && valid[1..validNum] == Live(list[..])
    }

    constructor (own: string, me: string, self: Info, battery: string)
      ensures Valid() && fresh(list) && fresh(valid) && fresh(sorted)
      ensures list.Length == 24 && Live(list[..]) == []
    {
      list := new Client[MAX_NUM_ENTRY](_ => Client("", Info("", "", "", "", "", "", "", "", "", "", "", "", ""), 0));
      valid := new Client[MAX_NUM_ENTRY](_ => Client("", Info("", "", "", "", "", "", "", "", "", "", "", "", ""), 0));
      sorted := new nat[MAX_NUM_ENTRY];
      validNum := 0;
      new;
      list[0] := list[0].(ip := own);
      AgeClientList(true, me, self, battery);
      NoneLive(list[..], MAX_NUM_ENTRY);
    }

    /** save_valid_client_entry */
    method SaveValidClientEntry(i: nat)
      requires i < list.Length && validNum < valid.Length && list != valid
      modifies valid, this`validNum
      ensures validNum == old(validNum) + 1 && valid[..validNum] == old(valid[..validNum]) + [list[i]]
    {
      valid[validNum] := list[i];
      validNum := validNum + 1;
    }

    /** The entry of this node: its settings, and in the valid list its battery state and address. */
    method RefreshOwnEntry(me: string, self: Info, battery: string)
      requires list.Length == valid.Length == MAX_NUM_ENTRY && list != valid
      modifies this`validNum, list, valid
      ensures list[..] ==
        old(list[..])[0 := Client(old(list[0].ip), self.(battery := old(list[0].info.battery)), AGE_COUNT)]
      ensures validNum == 1 && valid[0] == Client(me, self.(battery := battery), AGE_COUNT)
    {
      list[0] := Client(list[0].ip, self.(battery := list[0].info.battery), AGE_COUNT);
      valid[0] := list[0];
      valid[0] := valid[0].(info := valid[0].info.(battery := battery));
      valid[0] := valid[0].(ip := me);
      validNum := 1;
    }

    /** One slot: unless there is a new entry it ages, and it is saved while it lives. */
    method AgeSlot(isNew: bool, i: nat)
      requires 1 <= i < list.Length == valid.Length && 1 <= validNum <= i && list != valid
      modifies this`validNum, list, valid
      ensures var c := if isNew then old(list[i]) else AgeOne(old(list[i]));
        && list[..] == old(list[..])[i := c]
        && validNum == (if c.age > 0 then old(validNum) + 1 else old(validNum))
        && valid[..validNum] == old(valid[..validNum]) + (if c.age > 0 then [c] else [])
    {
      if list[i].age > 0 {
        if isNew {
          SaveValidClientEntry(i);
        } else {
          list[i] := list[i].(age := list[i].age - 1);
          if list[i].age > 0 {
            SaveValidClientEntry(i);
          }
        }
      }
    }

    /** The slots of the other nodes, one after the other. */
    method AgeOthers(isNew: bool, ghost before: seq<Client>, ghost target: seq<Client>)
      requires list.Length == valid.Length == MAX_NUM_ENTRY == |target| && list != valid && validNum == 1
      requires Target(before, isNew, target) && AgedTo(before, target, list[..], 1)
      modifies this`validNum, list, valid
      ensures AgedTo(before, target, list[..], MAX_NUM_ENTRY) && list[0] == old(list[0])
      ensures 1 <= validNum <= MAX_NUM_ENTRY
      ensures valid[..validNum] == [old(valid[0])] + LiveUpTo(target, MAX_NUM_ENTRY)
    {
      hide AgeOne, LiveUpTo, AgedTo, Target;
      ghost var first, own := valid[0], list[0];
      var i := 1;
      NoneLiveYet(target);
      while i < MAX_NUM_ENTRY
        invariant 1 <= i <= MAX_NUM_ENTRY && AgedTo(before, target, list[..], i) && list[0] == own
        invariant 1 <= validNum <= i && valid[..validNum] == [first] + LiveUpTo(target, i)
      {
        AgeingStep(before, target, list[..], i, isNew);
        AgeSlot(isNew, i);
        i := i + 1;
      }
    }

    /**
      age_client_list: with isNew, only the valid list is made anew; otherwise every entry ages first.
      me, self and battery are this node's address, settings and battery state.
     */
    method AgeClientList(isNew: bool, me: string, self: Info, battery: string)
      requires list.Length == valid.Length == sorted.Length == MAX_NUM_ENTRY && list != valid && WfTable(list[..])
      modifies this`validNum, list, valid
      ensures Valid() && valid[0] == Client(me, self.(battery := battery), AGE_COUNT)
      ensures SameOthers(if isNew then old(list[..]) else Aged(old(list[..])), list[..])
      ensures list[0] == Client(old(list[0].ip), self.(battery := old(list[0].info.battery)), AGE_COUNT)
    {
      ghost var before := list[..];
      ghost var target := if isNew then before else Aged(before);
      TargetAt(before, isNew, target);
      RefreshOwnEntry(me, self, battery);
      StartAgeing(before, target, list[..]);
      hide Aged, AgeOne, SameOthers, WfTable, LiveUpTo, AgedTo, Target;
      AgeOthers(isNew, before, target);
      AgeingDone(before, isNew, target, list[..]);
      assert valid[1..validNum] == LiveUpTo(target, MAX_NUM_ENTRY);
    }

    /** my_ip_address */
    method MyIpAddress(me: string)
      requires valid.Length > 0
      modifies valid
      ensures valid[..] == old(valid[..])[0 := old(valid[0]).(ip := me)]
    {
      valid[0] := valid[0].(ip := me);
    }

    /** populate_new_client */
    method PopulateNewClient(ip: string, info: Info, me: string, self: Info, battery: string)
      requires Valid()
      modifies this`validNum, list, valid
      ensures Valid()
      ensures SameOthers(Step(old(list[..]), me, Message(ip, info)), list[..])
      ensures ip != me && HasPlace(old(list[..]), ip) ==>
        exists i :: EnteredAt(old(list[..]), list[..], ip, info, i)
      ensures if ip == me || !HasPlace(old(list[..]), ip)
        then
          && validNum == old(validNum) && list[..] == old(list[..])
          && valid[..] == old(valid[..])[0 := old(valid[0]).(ip := me)]
        else valid[0] == Client(me, self.(battery := battery), AGE_COUNT)
    {
      hide WfTable, LiveUpTo, HasPlace, EnteredAt;
      ghost var before := list[..];
      HeardIsEntered(before, ip, info);
      NoPlace(before, ip);
      MyIpAddress(me);
      assert valid[1..validNum] == old(valid[1..validNum]);
      if valid[0].ip == ip {
        return;
      }
      HeardWf(before, ip, info);
      var i := 1;
      while i < MAX_NUM_ENTRY
        invariant 1 <= i <= MAX_NUM_ENTRY && FindLive(before, ip, 1) == FindLive(before, ip, i)
      {
        if list[i].ip == ip && list[i].age > 0 {
          list[i] := Client(list[i].ip, info, AGE_COUNT);
          assert list[..] == Heard(before, ip, info);
          AgeClientList(true, me, self, battery);
          EntryStays(before, Heard(before, ip, info), list[..], ip, info);
          return;
        }
        i := i + 1;
      }
      i := 1;
      while i < MAX_NUM_ENTRY
        invariant 1 <= i <= MAX_NUM_ENTRY && FindFree(before, 1) == FindFree(before, i)
      {
        if list[i].age == 0 {
          list[i] := Client(ip, info, AGE_COUNT);
          assert list[..] == Heard(before, ip, info);
          AgeClientList(true, me, self, battery);
          EntryStays(before, Heard(before, ip, info), list[..], ip, info);
          return;
        }
        i := i + 1;
      }
    }

    /** sort_client_list: by exchanges, unless the sort key is unknown. */
    method SortClientList(sortBy: char)
      requires Valid()
      modifies sorted
      ensures Ranked(sorted[..validNum], validNum)
      ensures '0' <= sortBy <= '4' ==> Ordered(valid[..validNum], sorted[..validNum], sortBy)
      ensures !('0' <= sortBy <= '4') ==> forall i :: 0 <= i < validNum ==> sorted[i] == i
    {
      var n := validNum;
      var i := 0;
      while i < n
        invariant 0 <= i <= n && forall k :: 0 <= k < i ==> sorted[k] == k
      {
        sorted[i] := i;
        i := i + 1;
      }
      ghost var entries := valid[..n];
      hide Key, Compare, Valid, RightWay;
      i := 0;
      while i < n
        invariant 0 <= i <= n && Ranked(sorted[..n], n)
        invariant KnownKey(sortBy) || forall k :: 0 <= k < n ==> sorted[k] == k
        invariant KnownKey(sortBy) ==> SortedTo(entries, sorted[..n], sortBy, i)
      {
        var j := i + 1;
        while j < n
          invariant i < j <= n && Ranked(sorted[..n], n)
          invariant KnownKey(sortBy) || forall k :: 0 <= k < n ==> sorted[k] == k
          invariant KnownKey(sortBy) ==>
            SortedTo(entries, sorted[..n], sortBy, i) && LeastTo(entries, sorted[..n], sortBy, i, j)
        {
          if !KnownKey(sortBy) {
            return;
          }
          var result := Compare(Key(valid[sorted[i]], sortBy), Key(valid[sorted[j]], sortBy));
          ExchangeKeeps(entries, sorted[..n], sortBy, i, j);
          if result > 0 {
            sorted[i], sorted[j] := sorted[j], sorted[i];
          }
          j := j + 1;
        }
        if KnownKey(sortBy) {
          NextSorted(entries, sorted[..n], sortBy, i);
        }
        i := i + 1;
      }
      if KnownKey(sortBy) {
        SortedIsOrdered(entries, sorted[..n], sortBy);
      }
    }
  }

  // ----- sort keys

  predicate KnownKey(sortBy: char) {
    '0' <= sortBy <= '4'
  }

  function Key(c: Client, sortBy: char): string {
    match sortBy
    case '0' => c.info.nodeName
    case '1' => c.ip
    case '2' => c.info.battery
    case '3' => c.info.subnet + c.info.universe
    case _ => c.info.sacnUniv
  }

  /** strcmp */
  function Compare(a: string, b: string): int {
    if a == [] && b == [] then 0
    else if a == [] then -1
    else if b == [] then 1
    else if a[0] != b[0] then a[0] as int - b[0] as int
    else Compare(a[1..], b[1..])
  }

  /** The strings agree before place k, and there a ends, or has the smaller character. */
  ghost predicate SmallerAt(a: string, b: string, k: nat) {
    k <= |a| && k < |b| && a[..k] == b[..k] && (k == |a| || a[k] < b[k])
  }

  /** a is a proper prefix of b, or has the smaller character at the first place where they differ. */
  ghost predicate Before(a: string, b: string) {
    exists k: nat :: SmallerAt(a, b, k)
  }

  /** strcmp is the order of strings. */
  lemma {:induction false} CompareIsOrder(a: string, b: string)
    ensures Compare(a, b) < 0 <==> Before(a, b)
    ensures Compare(a, b) > 0 <==> Before(b, a)
    ensures Compare(a, b) == 0 <==> a == b
  {
    if a == [] || b == [] || a[0] != b[0] {
      DecidedAtOnce(a, b);
      DecidedAtOnce(b, a);
    } else {
      CompareIsOrder(a[1..], b[1..]);
      BeforeTail(a, b);
      BeforeTail(b, a);
      assert a == [a[0]] + a[1..] && b == [b[0]] + b[1..];
    }
  }

  lemma DecidedAtOnce(a: string, b: string)
    requires a == [] || b == [] || a[0] != b[0]
    ensures Before(a, b) <==> b != [] && (a == [] || a[0] < b[0])
  {
    if b != [] && (a == [] || a[0] < b[0]) {
      assert SmallerAt(a, b, 0);
    }
    forall k: nat | SmallerAt(a, b, k)
      ensures k == 0
    {
      if k > 0 {
        SameFirst(a, b, k);
      }
    }
  }

  lemma SameFirst(a: string, b: string, k: nat)
    requires SmallerAt(a, b, k) && k > 0
    ensures a != [] && b != [] && a[0] == b[0]
  {
    assert a[..k][0] == b[..k][0];
  }

  lemma BeforeTail(a: string, b: string)
    requires a != [] && b != [] && a[0] == b[0]
    ensures Before(a, b) <==> Before(a[1..], b[1..])
  {
    forall k: nat | SmallerAt(a, b, k)
      ensures k > 0 && SmallerAt(a[1..], b[1..], k - 1)
    {
      assert a[1..][..k - 1] == a[..k][1..] && b[1..][..k - 1] == b[..k][1..];
    }
    forall k: nat | SmallerAt(a[1..], b[1..], k)
      ensures SmallerAt(a, b, k + 1)
    {
      assert a[..k + 1] == [a[0]] + a[1..][..k] && b[..k + 1] == [b[0]] + b[1..][..k];
    }
  }

  lemma {:induction false} CompareTotal(a: string, b: string)
    ensures Compare(a, b) > 0 ==> Compare(b, a) <= 0
  {
    CompareIsOrder(a, b);
    CompareIsOrder(b, a);
  }

  lemma {:induction false} CompareChains(a: string, b: string, c: string)
    requires Compare(a, b) <= 0 && Compare(b, c) <= 0
    ensures Compare(a, c) <= 0
  {
    if a != [] && b != [] && c != [] && a[0] == b[0] == c[0] {
      CompareChains(a[1..], b[1..], c[1..]);
    }
  }

  ghost predicate InOrder(entries: seq<Client>, s: seq<nat>, sortBy: char, p: nat, q: nat)
    requires p < |s| && q < |s|
  {
    s[p] < |entries| && s[q] < |entries| && Compare(Key(entries[s[p]], sortBy), Key(entries[s[q]], sortBy)) <= 0
  }

  /** b's sort key is not before a's: the name, the address, the battery, subnet and universe, or the sACN universe. */
  ghost predicate RightWay(a: Client, b: Client, sortBy: char) {
    && (sortBy == '0' ==> !Before(b.info.nodeName, a.info.nodeName))
    && (sortBy == '1' ==> !Before(b.ip, a.ip))
    && (sortBy == '2' ==> !Before(b.info.battery, a.info.battery))
    && (sortBy == '3' ==> !Before(b.info.subnet + b.info.universe, a.info.subnet + a.info.universe))
    && (sortBy == '4' ==> !Before(b.info.sacnUniv, a.info.sacnUniv))
  }

  /** Every entry is named exactly once. */
  ghost predicate Ranked(s: seq<nat>, n: nat) {
    |s| == n && (forall p :: 0 <= p < n ==> s[p] < n) && forall p, q :: 0 <= p < q < n ==> s[p] != s[q]
  }

  ghost predicate Ordered(entries: seq<Client>, s: seq<nat>, sortBy: char) {
    && (forall p :: 0 <= p < |s| ==> s[p] < |entries|)
    && forall p, q :: 0 <= p < q < |s| ==> RightWay(entries[s[p]], entries[s[q]], sortBy)
  }

  lemma SortedIsOrdered(entries: seq<Client>, s: seq<nat>, sortBy: char)
    requires Ranked(s, |entries|) && SortedTo(entries, s, sortBy, |s|) && KnownKey(sortBy)
    ensures Ordered(entries, s, sortBy)
  {
    hide Before, Compare;
    forall p, q | 0 <= p < q < |s|
      ensures RightWay(entries[s[p]], entries[s[q]], sortBy)
    {
      assert InOrder(entries, s, sortBy, p, q);
      CompareIsOrder(Key(entries[s[p]], sortBy), Key(entries[s[q]], sortBy));
    }
  }

  ghost predicate SortedTo(entries: seq<Client>, s: seq<nat>, sortBy: char, i: nat) {
    forall p, q :: 0 <= p < i && p < q < |s| ==> InOrder(entries, s, sortBy, p, q)
  }

  ghost predicate LeastTo(entries: seq<Client>, s: seq<nat>, sortBy: char, i: nat, j: nat) {
    forall q :: i < q < j && q < |s| ==> InOrder(entries, s, sortBy, i, q)
  }

  function Exchanged(s: seq<nat>, i: nat, j: nat): (r: seq<nat>)
    requires i < |s| && j < |s|
    ensures |r| == |s|
  {
    s[i := s[j]][j := s[i]]
  }

  /** One comparison, and the exchange if it is called for. */
  lemma ExchangeKeeps(entries: seq<Client>, s: seq<nat>, sortBy: char, i: nat, j: nat)
    requires Ranked(s, |entries|) && i < j < |s| && SortedTo(entries, s, sortBy, i) && LeastTo(entries, s, sortBy, i, j)
    ensures if Compare(Key(entries[s[i]], sortBy), Key(entries[s[j]], sortBy)) > 0
      then
        var r := Exchanged(s, i, j);
        Ranked(r, |entries|) && SortedTo(entries, r, sortBy, i) && LeastTo(entries, r, sortBy, i, j + 1)
      else LeastTo(entries, s, sortBy, i, j + 1)
  {
    hide Key, Compare;
    if Compare(Key(entries[s[i]], sortBy), Key(entries[s[j]], sortBy)) > 0 {
      var r := Exchanged(s, i, j);
      CompareTotal(Key(entries[s[i]], sortBy), Key(entries[s[j]], sortBy));
      forall p, q | 0 <= p < i && p < q < |r|
        ensures InOrder(entries, r, sortBy, p, q)
      {
        assert InOrder(entries, s, sortBy, p, if q == i then j else if q == j then i else q);
      }
      forall q | i < q < j + 1 && q < |r|
        ensures InOrder(entries, r, sortBy, i, q)
      {
        if q < j {
          assert InOrder(entries, s, sortBy, i, q);
          CompareChains(Key(entries[s[j]], sortBy), Key(entries[s[i]], sortBy), Key(entries[s[q]], sortBy));
        }
      }
    }
  }

  lemma NextSorted(entries: seq<Client>, s: seq<nat>, sortBy: char, i: nat)
    requires SortedTo(entries, s, sortBy, i) && LeastTo(entries, s, sortBy, i, |s|)
    ensures SortedTo(entries, s, sortBy, i + 1)
  {
    hide InOrder;
  }

  lemma {:induction false} NoneLive(list: seq<Client>, n: nat)
    requires n <= |list| && forall i :: 1 <= i < n ==> list[i].age == 0
    ensures LiveUpTo(list, n) == []
  {
    if n > 1 {
      NoneLive(list, n - 1);
    }
  }

  lemma TargetAt(list: seq<Client>, isNew: bool, target: seq<Client>)
    requires |list| == MAX_NUM_ENTRY && target == if isNew then list else Aged(list)
    ensures |target| == |list| && Target(list, isNew, target)
  {
  }

  ghost predicate Target(list: seq<Client>, isNew: bool, target: seq<Client>) {
    |target| == |list| && forall i :: 1 <= i < |list| ==> target[i] == if isNew then list[i] else AgeOne(list[i])
  }

  /** The slots below i are as they are to be, the others as they were. */
  ghost predicate AgedTo(before: seq<Client>, target: seq<Client>, list: seq<Client>, i: nat) {
    && |before| == |target| == |list| == MAX_NUM_ENTRY && list[0].age == AGE_COUNT
    && (forall j :: 1 <= j < i && j < |list| ==> list[j] == target[j])
    && (forall j :: i <= j < |list| ==> list[j] == before[j])
  }

  lemma StartAgeing(before: seq<Client>, target: seq<Client>, list: seq<Client>)
    requires |before| == |target| == MAX_NUM_ENTRY && SameOthers(before, list) && list[0].age == AGE_COUNT
    ensures AgedTo(before, target, list, 1)
  {
  }

  lemma NoneLiveYet(list: seq<Client>)
    requires |list| > 0
    ensures LiveUpTo(list, 1) == []
  {
  }

  lemma AgeingStep(before: seq<Client>, target: seq<Client>, list: seq<Client>, i: nat, isNew: bool)
    requires AgedTo(before, target, list, i) && 1 <= i < MAX_NUM_ENTRY && Target(before, isNew, target)
    ensures list[i] == before[i] && target[i] == if isNew then list[i] else AgeOne(list[i])
    ensures AgedTo(before, target, list[i := target[i]], i + 1)
    ensures LiveUpTo(target, i + 1) == LiveUpTo(target, i) + (if target[i].age > 0 then [target[i]] else [])
  {
  }

  lemma AgeingDone(before: seq<Client>, isNew: bool, target: seq<Client>, list: seq<Client>)
    requires WfTable(before) && target == (if isNew then before else Aged(before))
    requires AgedTo(before, target, list, MAX_NUM_ENTRY)
    ensures SameOthers(target, list) && WfTable(list) && Live(list) == LiveUpTo(target, MAX_NUM_ENTRY)
  {
    LiveIgnoresFirst(target, list, MAX_NUM_ENTRY);
  }
}
