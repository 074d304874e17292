/**
 Memory reports by process, by user and by mapping name. The same mappings are grouped three
 ways; the three reports must agree in total. A dictionary is a map that the loops update.
 */
module SmemTotals {
  import opened Bits

  datatype Field =
    | Size | Rss | Pss | SharedClean | SharedDirty
    | PrivateClean | PrivateDirty | Referenced | Swap

  /** One mapping; fields that the kernel does not report are missing. */
  datatype Mapping = Mapping(name: string, fields: map<Field, nat>)

  /** `hidden` tells that a process or user filter excludes the process. */
  datatype Process = Process(pid: int, uid: int, hidden: bool, maps: seq<Mapping>)

  type Totals = map<Field, nat>

  function Get(m: Mapping, k: Field): nat {
    if k in m.fields then m.fields[k] else 0
  }

  const NO_TOTALS: Totals := map k: Field | true :: 0

  function Plus(t: Totals, m: Mapping): Totals {
    map k | k in t :: t[k] + Get(m, k)
  }

  // The reference: all mappings of all processes that are not hidden.

  datatype Item = Item(pid: int, uid: int, m: Mapping)

  datatype Key = Pid(pid: int) | User(uid: int) | Name(name: string)

  datatype Grouping = ByPid | ByUser | ByName

  function KeyOf(i: Item, g: Grouping): Key {
    match g
    case ByPid => Pid(i.pid)
    case ByUser => User(i.uid)
    case ByName => Name(i.m.name)
  }

  function ItemsOf(p: Process, n: nat): seq<Item>
    requires n <= |p.maps|
  {
    if n == 0 then [] else ItemsOf(p, n - 1) + [Item(p.pid, p.uid, p.maps[n - 1])]
  }

  function Flat(ps: seq<Process>): seq<Item> {
    if ps == [] then []
    else
      var p := ps[|ps| - 1];
      Flat(ps[..|ps| - 1]) + (if p.hidden then [] else ItemsOf(p, |p.maps|))
  }

  /** A column of the reports: a memory field, or the number of mappings. */
  datatype Column = Memory(field: Field) | Mappings

  function Amount(m: Mapping, c: Column): nat {
    match c
    case Memory(k) => Get(m, k)
    case Mappings => 1
  }

  function Total(items: seq<Item>, c: Column): nat {
    if items == [] then 0
    else Total(items[..|items| - 1], c) + Amount(items[|items| - 1].m, c)
  }

  function GroupTotal(items: seq<Item>, g: Grouping, key: Key, c: Column): nat {
    if items == [] then 0
    else GroupTotal(items[..|items| - 1], g, key, c) +
         (if KeyOf(items[|items| - 1], g) == key then Amount(items[|items| - 1].m, c) else 0)
  }

  function Keys(items: seq<Item>, g: Grouping): set<Key> {
    set i | i in items :: KeyOf(i, g)
  }

  lemma {:induction false} GroupAppend(items: seq<Item>, more: seq<Item>, g: Grouping, key: Key, c: Column)
    ensures GroupTotal(items + more, g, key, c) ==
            GroupTotal(items, g, key, c) + GroupTotal(more, g, key, c)
  {
    if more == [] {
      assert items + more == items;
    } else {
      var n := |more| - 1;
      GroupAppend(items, more[..n], g, key, c);
      assert (items + more)[..|items| + n] == items + more[..n];
    }
  }

  // Summing a report.

  ghost function SumOver(keys: set<Key>, f: Key -> nat): nat {
    if keys == {} then 0
    else
      var x :| x in keys;
      f(x) + SumOver(keys - {x}, f)
  }

  lemma {:induction false} SumPick(keys: set<Key>, f: Key -> nat, x: Key)
    requires x in keys
    ensures SumOver(keys, f) == f(x) + SumOver(keys - {x}, f)
    decreases |keys|
  {
    var y :| y in keys && SumOver(keys, f) == f(y) + SumOver(keys - {y}, f);
    if y != x {
      SumPick(keys - {y}, f, x);
      SumPick(keys - {x}, f, y);
      assert keys - {x} - {y} == keys - {y} - {x};
    }
  }

  /** Two reports that differ in one entry differ in total by as much. */
  lemma {:induction false} SumChange(keys: set<Key>, f: Key -> nat, f': Key -> nat, x: Key, d: nat)
    requires forall y :: y in keys ==> f'(y) == f(y) + (if y == x then d else 0)
    ensures SumOver(keys, f') == SumOver(keys, f) + (if x in keys then d else 0)
    decreases |keys|
  {
    if keys != {} {
      var y :| y in keys;
      SumPick(keys, f, y);
      SumPick(keys, f', y);
      SumChange(keys - {y}, f, f', x, d);
    }
  }

  lemma {:induction false} SumZero(keys: set<Key>, f: Key -> nat)
    requires forall y :: y in keys ==> f(y) == 0
    ensures SumOver(keys, f) == 0
    decreases |keys|
  {
    if keys != {} {
      var y :| y in keys;
      SumPick(keys, f, y);
      SumZero(keys - {y}, f);
    }
  }

  /** Whatever the grouping, the groups of a report add up to the same total. */
  lemma {:induction false} GroupsAddUp(items: seq<Item>, keys: set<Key>, g: Grouping, c: Column)
    requires forall i :: i in items ==> KeyOf(i, g) in keys
    ensures SumOver(keys, x => GroupTotal(items, g, x, c)) == Total(items, c)
  {
    var f := x => GroupTotal(items, g, x, c);
    if items == [] {
      SumZero(keys, f);
    } else {
      var init, i := items[..|items| - 1], items[|items| - 1];
      var before := x => GroupTotal(init, g, x, c);
      assert forall j :: j in init ==> j in items;
      GroupsAddUp(init, keys, g, c);
      assert i in items;
      SumChange(keys, before, f, KeyOf(i, g), Amount(i.m, c));
    }
  }

  // The reports.

  ghost predicate Complete(t: Totals) {
    forall k: Field :: k in t
  }

  predicate Reported(p: Process) {
    !p.hidden && p.maps != []
  }

  /** One item for each process that is reported. */
  function Heads(ps: seq<Process>): seq<Item> {
    if ps == [] then []
    else
      var p := ps[|ps| - 1];
      Heads(ps[..|ps| - 1]) + (if Reported(p) then [Item(p.pid, p.uid, p.maps[0])] else [])
  }

  /** The table rows of the items agree with the group totals. */
  ghost predicate Agrees(t: Totals, items: seq<Item>, g: Grouping, key: Key) {
    Complete(t) && forall k: Field :: t[k] == GroupTotal(items, g, key, Memory(k))
  }

  lemma GroupOne(items: seq<Item>, i: Item, g: Grouping, key: Key, c: Column)
    ensures GroupTotal(items + [i], g, key, c) ==
            GroupTotal(items, g, key, c) + (if KeyOf(i, g) == key then Amount(i.m, c) else 0)
  {
    assert (items + [i])[..|items|] == items;
  }

  /** Adding a mapping to the row of its key keeps the row in agreement. */
  lemma AgreesAfter(t: Totals, items: seq<Item>, g: Grouping, i: Item)
    requires Agrees(t, items, g, KeyOf(i, g))
    ensures Agrees(Plus(t, i.m), items + [i], g, KeyOf(i, g))
  {
    forall k: Field
      ensures Plus(t, i.m)[k] == GroupTotal(items + [i], g, KeyOf(i, g), Memory(k))
    {
      GroupOne(items, i, g, KeyOf(i, g), Memory(k));
    }
  }

  /** Items of other keys do not matter. */
  lemma AgreesElse(t: Totals, items: seq<Item>, g: Grouping, i: Item, key: Key)
    requires Agrees(t, items, g, key) && key != KeyOf(i, g)
    ensures Agrees(t, items + [i], g, key)
  {
    forall k: Field
      ensures t[k] == GroupTotal(items + [i], g, key, Memory(k))
    {
      GroupOne(items, i, g, key, Memory(k));
    }
  }

  /** A key without items has an empty row. */
  lemma {:induction false} NoItems(items: seq<Item>, g: Grouping, key: Key, c: Column)
    requires key !in Keys(items, g)
    ensures GroupTotal(items, g, key, c) == 0
  {
    if items != [] {
      var init, i := items[..|items| - 1], items[|items| - 1];
      assert KeyOf(i, g) in Keys(items, g);
      assert forall j :: j in init ==> j in items;
      NoItems(init, g, key, c);
    }
  }

  lemma EmptyRow(items: seq<Item>, g: Grouping, key: Key)
    requires key !in Keys(items, g)
    ensures Agrees(NO_TOTALS, items, g, key)
  {
    forall k: Field
      ensures NO_TOTALS[k] == GroupTotal(items, g, key, Memory(k))
    {
      NoItems(items, g, key, Memory(k));
    }
  }

  lemma KeysAppend(items: seq<Item>, i: Item, g: Grouping)
    ensures Keys(items + [i], g) == Keys(items, g) + {KeyOf(i, g)}
  {
    assert forall j :: j in items + [i] <==> j in items || j == i;
    assert i in items + [i];
  }

  datatype UserRow = UserRow(t: Totals, count: nat)

  /** The user report: group totals, and the number of reported processes. */
  ghost predicate UsersOk(totals: map<int, UserRow>, items: seq<Item>, heads: seq<Item>) {
    && (forall u :: u in totals <==> User(u) in Keys(items, ByUser))
    && (forall u :: u in totals ==>
          && Agrees(totals[u].t, items, ByUser, User(u))
          && totals[u].count == GroupTotal(heads, ByUser, User(u), Mappings))
  }

  function ProcessKey(p: Process, g: Grouping): Key {
    if g.ByPid? then Pid(p.pid) else User(p.uid)
  }

  /** The loop over the mappings of a process, for its own row or for its user's. */
  method AddMaps(t0: Totals, ghost items: seq<Item>, ghost g: Grouping, p: Process)
    returns (t: Totals)
    requires !g.ByName? && Agrees(t0, items, g, ProcessKey(p, g))
    ensures Agrees(t, items + ItemsOf(p, |p.maps|), g, ProcessKey(p, g))
  {
    hide Agrees, Plus;
    t := t0;
    assert items + [] == items;
    for j := 0 to |p.maps|
      invariant Agrees(t, items + ItemsOf(p, j), g, ProcessKey(p, g))
    {
      ghost var i := Item(p.pid, p.uid, p.maps[j]);
      AgreesAfter(t, items + ItemsOf(p, j), g, i);
      assert items + ItemsOf(p, j + 1) == (items + ItemsOf(p, j)) + [i];
      t := Plus(t, p.maps[j]);
    }
  }

  /** Items of one process all have its pid and its user. */
  lemma {:induction false} ItemsOfKeys(p: Process, n: nat)
    requires n <= |p.maps|
    ensures |ItemsOf(p, n)| == n
    ensures forall i :: i in ItemsOf(p, n) ==> i.pid == p.pid && i.uid == p.uid
  {
    if n > 0 {
      ItemsOfKeys(p, n - 1);
    }
  }

  /** A process adds nothing to the groups of other keys. */
  lemma OtherGroups(items: seq<Item>, more: seq<Item>, g: Grouping, key: Key, c: Column)
    requires forall i :: i in more ==> KeyOf(i, g) != key
    ensures GroupTotal(items + more, g, key, c) == GroupTotal(items, g, key, c)
  {
    GroupAppend(items, more, g, key, c);
    NoItems(more, g, key, c);
  }

  lemma AgreesOthers(t: Totals, items: seq<Item>, more: seq<Item>, g: Grouping, key: Key)
    requires Agrees(t, items, g, key) && forall i :: i in more ==> KeyOf(i, g) != key
    ensures Agrees(t, items + more, g, key)
  {
    forall k: Field
      ensures t[k] == GroupTotal(items + more, g, key, Memory(k))
    {
      OtherGroups(items, more, g, key, Memory(k));
    }
  }

  lemma KeysOfProcess(items: seq<Item>, p: Process, g: Grouping)
    requires !g.ByName? && p.maps != []
    ensures Keys(items + ItemsOf(p, |p.maps|), g) == Keys(items, g) + {ProcessKey(p, g)}
  {
    var more := ItemsOf(p, |p.maps|);
    ItemsOfKeys(p, |p.maps|);
    assert more[0] in items + more;
    assert forall i :: i in items + more <==> i in items || i in more;
  }

  lemma FlatAppend(ps: seq<Process>, p: Process)
    ensures Flat(ps + [p]) == Flat(ps) + (if Reported(p) then ItemsOf(p, |p.maps|) else [])
    ensures Heads(ps + [p]) ==
            Heads(ps) + (if Reported(p) then [Item(p.pid, p.uid, p.maps[0])] else [])
  {
    assert (ps + [p])[..|ps|] == ps;
  }

  lemma UserStep(totals: map<int, UserRow>, items: seq<Item>, heads: seq<Item>, p: Process, t: Totals)
    requires UsersOk(totals, items, heads) && Reported(p)
    requires Agrees(t, items + ItemsOf(p, |p.maps|), ByUser, User(p.uid))
    requires p.uid !in totals ==> User(p.uid) !in Keys(heads, ByUser)
    ensures
      var count := if p.uid in totals then totals[p.uid].count else 0;
      UsersOk(totals[p.uid := UserRow(t, count + 1)], items + ItemsOf(p, |p.maps|),
              heads + [Item(p.pid, p.uid, p.maps[0])])
  {
    hide Agrees, ItemsOf, GroupTotal;
    var more, head := ItemsOf(p, |p.maps|), Item(p.pid, p.uid, p.maps[0]);
    ItemsOfKeys(p, |p.maps|);
    KeysOfProcess(items, p, ByUser);
    GroupOne(heads, head, ByUser, User(p.uid), Mappings);
    if p.uid !in totals {
      NoItems(heads, ByUser, User(p.uid), Mappings);
    }
    forall u | u in totals && u != p.uid
      ensures Agrees(totals[u].t, items + more, ByUser, User(u))
      ensures totals[u].count == GroupTotal(heads + [head], ByUser, User(u), Mappings)
    {
      AgreesOthers(totals[u].t, items, more, ByUser, User(u));
      GroupOne(heads, head, ByUser, User(u), Mappings);
    }
  }

  /** Every reported process has items. */
  lemma {:induction false} HeadKeys(ps: seq<Process>, g: Grouping)
    requires !g.ByName?
    ensures Keys(Heads(ps), g) == Keys(Flat(ps), g)
  {
    if ps != [] {
      var init, p := ps[..|ps| - 1], ps[|ps| - 1];
      HeadKeys(init, g);
      assert ps == init + [p];
      FlatAppend(init, p);
      if Reported(p) {
        KeysOfProcess(Flat(init), p, g);
        KeysAppend(Heads(init), Item(p.pid, p.uid, p.maps[0]), g);
      } else {
        assert Flat(ps) == Flat(init) && Heads(ps) == Heads(init);
      }
    }
  }

  method UserTotals(ps: seq<Process>) returns (totals: map<int, UserRow>)
    ensures UsersOk(totals, Flat(ps), Heads(ps))
  {
    hide UsersOk, Agrees, Flat, Heads;
    totals := map[];
    NoUsers();
    for n := 0 to |ps|
      invariant UsersOk(totals, Flat(ps[..n]), Heads(ps[..n]))
    {
      var p := ps[n];
      ghost var items, heads := Flat(ps[..n]), Heads(ps[..n]);
      assert ps[..n + 1] == ps[..n] + [p];
      FlatAppend(ps[..n], p);
      if p.hidden || p.maps == [] {
        assert items + [] == items && heads + [] == heads;
        continue;
      }
      HeadKeys(ps[..n], ByUser);
      UserRowOf(totals, items, heads, p.uid);
      var row := if p.uid in totals then totals[p.uid] else UserRow(NO_TOTALS, 0);
      var t := AddMaps(row.t, items, ByUser, p);
      UserStep(totals, items, heads, p, t);
      totals := totals[p.uid := UserRow(t, row.count + 1)];
    }
    assert ps[..|ps|] == ps;
  }

  lemma NoUsers()
    ensures UsersOk(map[], Flat([]), Heads([]))
  {
  }

  lemma UserRowOf(totals: map<int, UserRow>, items: seq<Item>, heads: seq<Item>, u: int)
    requires UsersOk(totals, items, heads)
    ensures u in totals <==> User(u) in Keys(items, ByUser)
    ensures Agrees(if u in totals then totals[u].t else NO_TOTALS, items, ByUser, User(u))
  {
    if u !in totals {
      EmptyRow(items, ByUser, User(u));
    }
  }

  // The process report.

  datatype PidRow = PidRow(t: Totals, uss: nat, maps: nat)

  /** Process ids are the names of directories, so no two are equal. */
  ghost predicate DistinctPids(ps: seq<Process>) {
    forall i, j :: 0 <= i < j < |ps| ==> ps[i].pid != ps[j].pid
  }

  ghost predicate PidsOk(totals: map<int, PidRow>, items: seq<Item>) {
    && (forall q :: q in totals <==> Pid(q) in Keys(items, ByPid))
    && (forall q :: q in totals ==>
          && Agrees(totals[q].t, items, ByPid, Pid(q))
          && totals[q].maps == GroupTotal(items, ByPid, Pid(q), Mappings)
          && totals[q].uss == GroupTotal(items, ByPid, Pid(q), Memory(PrivateClean)) +
                              GroupTotal(items, ByPid, Pid(q), Memory(PrivateDirty)))
  }

  lemma {:induction false} PidsSeen(ps: seq<Process>, q: int)
    requires Pid(q) in Keys(Flat(ps), ByPid)
    ensures exists i :: 0 <= i < |ps| && ps[i].pid == q
  {
    var init, p := ps[..|ps| - 1], ps[|ps| - 1];
    assert ps == init + [p];
    FlatAppend(init, p);
    if Reported(p) {
      KeysOfProcess(Flat(init), p, ByPid);
    } else {
      assert Flat(init) + [] == Flat(init);
    }
    if Pid(q) in Keys(Flat(init), ByPid) {
      PidsSeen(init, q);
      var i :| 0 <= i < |init| && init[i].pid == q;
      assert ps[i].pid == q;
    } else {
      assert ps[|ps| - 1].pid == q;
    }
  }

  lemma OwnKey(p: Process, m: Mapping)
    ensures KeyOf(Item(p.pid, p.uid, m), ByPid) == Pid(p.pid)
  {
  }

  lemma {:induction false} OwnMappings(p: Process, n: nat)
    requires n <= |p.maps|
    ensures GroupTotal(ItemsOf(p, n), ByPid, Pid(p.pid), Mappings) == n
  {
    hide KeyOf;
    if n > 0 {
      OwnMappings(p, n - 1);
      OwnKey(p, p.maps[n - 1]);
      GroupOne(ItemsOf(p, n - 1), Item(p.pid, p.uid, p.maps[n - 1]), ByPid, Pid(p.pid), Mappings);
    }
  }

  lemma PidStep(totals: map<int, PidRow>, items: seq<Item>, p: Process, t: Totals)
    requires PidsOk(totals, items) && p.maps != [] && Pid(p.pid) !in Keys(items, ByPid)
    requires Agrees(t, items + ItemsOf(p, |p.maps|), ByPid, Pid(p.pid))
    ensures PidsOk(totals[p.pid := PidRow(t, t[PrivateClean] + t[PrivateDirty], |p.maps|)],
                   items + ItemsOf(p, |p.maps|))
  {
    hide ItemsOf, GroupTotal;
    var more := ItemsOf(p, |p.maps|);
    ItemsOfKeys(p, |p.maps|);
    KeysOfProcess(items, p, ByPid);
    OwnMappings(p, |p.maps|);
    NoItems(items, ByPid, Pid(p.pid), Mappings);
    GroupAppend(items, more, ByPid, Pid(p.pid), Mappings);
    forall q, c | q in totals
      ensures GroupTotal(items + more, ByPid, Pid(q), c) == GroupTotal(items, ByPid, Pid(q), c)
    {
      OtherGroups(items, more, ByPid, Pid(q), c);
    }
  }

  method ProcessTotals(ps: seq<Process>) returns (totals: map<int, PidRow>)
    requires DistinctPids(ps)
    ensures PidsOk(totals, Flat(ps))
  {
    hide PidsOk, Agrees, Flat, Heads;
    totals := map[];
    NoPids();
    for n := 0 to |ps|
      invariant PidsOk(totals, Flat(ps[..n]))
    {
      var p := ps[n];
      ghost var items := Flat(ps[..n]);
      assert ps[..n + 1] == ps[..n] + [p];
      FlatAppend(ps[..n], p);
      if p.hidden {
        assert items + [] == items;
        continue;
      }
      NewPid(ps, n);
      EmptyRow(items, ByPid, Pid(p.pid));
      var t := AddMaps(NO_TOTALS, items, ByPid, p);
      assert Complete(t) by { RowIsComplete(t, items + ItemsOf(p, |p.maps|), Pid(p.pid)); }
      var row := PidRow(t, t[PrivateClean] + t[PrivateDirty], |p.maps|);
      if row.maps != 0 {
        PidStep(totals, items, p, t);
        totals := totals[p.pid := row];
      } else {
        assert items + [] == items;
      }
    }
    assert ps[..|ps|] == ps;
  }

  lemma RowIsComplete(t: Totals, items: seq<Item>, key: Key)
    requires Agrees(t, items, ByPid, key)
    ensures Complete(t)
  {
  }

  lemma NewPid(ps: seq<Process>, n: nat)
    requires DistinctPids(ps) && n < |ps|
    ensures Pid(ps[n].pid) !in Keys(Flat(ps[..n]), ByPid)
  {
    if Pid(ps[n].pid) in Keys(Flat(ps[..n]), ByPid) {
      PidsSeen(ps[..n], ps[n].pid);
      assert false;
    }
  }

  lemma NoPids()
    ensures PidsOk(map[], Flat([]))
  {
  }

  // The mapping report.

  datatype MapRow = MapRow(t: Totals, count: nat, pids: nat)

  /** One of the first `n` mappings of the process has the name. */
  predicate UsesName(p: Process, n: nat, name: string)
    requires n <= |p.maps|
  {
    exists i :: 0 <= i < n && p.maps[i].name == name
  }

  /** How many processes have a mapping of that name. */
  function Users(ps: seq<Process>, name: string): nat {
    if ps == [] then 0
    else
      var p := ps[|ps| - 1];
      Users(ps[..|ps| - 1], name) + (if !p.hidden && UsesName(p, |p.maps|, name) then 1 else 0)
  }

  /** The mapping report after the processes `ps` and the first `n` mappings of `p`. */
  ghost predicate NamesOk(totals: map<string, MapRow>, items: seq<Item>,
                          ps: seq<Process>, p: Process, n: nat)
    requires n <= |p.maps|
  {
    && (forall x :: x in totals <==> Name(x) in Keys(items, ByName))
    && (forall x :: x in totals ==>
          && Agrees(totals[x].t, items, ByName, Name(x))
          && totals[x].count == GroupTotal(items, ByName, Name(x), Mappings))
    && (forall x :: (if x in totals then totals[x].pids else 0) ==
                    Users(ps, x) + (if UsesName(p, n, x) then 1 else 0))
  }

  lemma NameStep(totals: map<string, MapRow>, items: seq<Item>, ps: seq<Process>, p: Process, n: nat,
                 t: Totals)
    requires n < |p.maps| && NamesOk(totals, items, ps, p, n)
    requires Agrees(t, items, ByName, Name(p.maps[n].name))
    ensures
      var m, i := p.maps[n], Item(p.pid, p.uid, p.maps[n]);
      var row := if m.name in totals then totals[m.name] else MapRow(t, 0, 0);
      var pids := row.pids + (if UsesName(p, n, m.name) then 0 else 1);
      NamesOk(totals[m.name := MapRow(Plus(t, m), row.count + 1, pids)], items + [i], ps, p, n + 1)
  {
    hide Agrees, GroupTotal, Plus, Users;
    var m, i := p.maps[n], Item(p.pid, p.uid, p.maps[n]);
    AgreesAfter(t, items, ByName, i);
    KeysAppend(items, i, ByName);
    GroupOne(items, i, ByName, Name(m.name), Mappings);
    if m.name !in totals {
      NoItems(items, ByName, Name(m.name), Mappings);
    }
    forall x | x in totals && x != m.name
      ensures Agrees(totals[x].t, items + [i], ByName, Name(x))
      ensures GroupTotal(items + [i], ByName, Name(x), Mappings) == GroupTotal(items, ByName, Name(x), Mappings)
    {
      AgreesElse(totals[x].t, items, ByName, i, Name(x));
      GroupOne(items, i, ByName, Name(x), Mappings);
    }
    forall x
      ensures UsesName(p, n + 1, x) <==> UsesName(p, n, x) || x == m.name
    {
      if x == m.name {
        assert p.maps[n].name == x;
      }
    }
  }

  method AddNames(totals0: map<string, MapRow>, ghost items: seq<Item>, ghost ps: seq<Process>,
                  p: Process) returns (totals: map<string, MapRow>)
    requires NamesOk(totals0, items, ps, p, 0)
    ensures NamesOk(totals, items + ItemsOf(p, |p.maps|), ps, p, |p.maps|)
  {
    hide NamesOk, Agrees, Plus, Users;
    totals := totals0;
    var seen: set<string> := {};
    assert items + [] == items;
    for n := 0 to |p.maps|
      invariant NamesOk(totals, items + ItemsOf(p, n), ps, p, n)
      invariant forall x :: x in seen <==> UsesName(p, n, x)
    {
      var m := p.maps[n];
      ghost var now, i := items + ItemsOf(p, n), Item(p.pid, p.uid, m);
      NameRowOf(totals, now, ps, p, n, m.name);
      var row := if m.name in totals then totals[m.name] else MapRow(NO_TOTALS, 0, 0);
      var pids := row.pids + (if m.name in seen then 0 else 1);
      NameStep(totals, now, ps, p, n, row.t);
      assert items + ItemsOf(p, n + 1) == now + [i];
      totals := totals[m.name := MapRow(Plus(row.t, m), row.count + 1, pids)];
      forall x
        ensures x in seen + {m.name} <==> UsesName(p, n + 1, x)
      {
        if x == m.name {
          assert p.maps[n].name == x;
        }
      }
      seen := seen + {m.name};
    }
  }

  lemma NameRowOf(totals: map<string, MapRow>, items: seq<Item>, ps: seq<Process>, p: Process,
                  n: nat, name: string)
    requires n <= |p.maps| && NamesOk(totals, items, ps, p, n)
    ensures Agrees(if name in totals then totals[name].t else NO_TOTALS, items, ByName, Name(name))
  {
    if name !in totals {
      EmptyRow(items, ByName, Name(name));
    }
  }

  const NOBODY := Process(0, 0, true, [])

  lemma NextProcess(totals: map<string, MapRow>, items: seq<Item>, ps: seq<Process>, p: Process, q: Process)
    requires NamesOk(totals, items, ps, p, |p.maps|) && !p.hidden
    ensures NamesOk(totals, items, ps + [p], q, 0)
  {
    hide Agrees, GroupTotal, Keys;
    assert (ps + [p])[..|ps|] == ps;
  }

  lemma SkippedProcess(totals: map<string, MapRow>, items: seq<Item>, ps: seq<Process>, p: Process, q: Process)
    requires NamesOk(totals, items, ps, p, 0) && p.hidden
    ensures NamesOk(totals, items, ps + [p], q, 0)
  {
    hide Agrees, GroupTotal, Keys;
    assert (ps + [p])[..|ps|] == ps;
  }

  lemma OtherProcess(totals: map<string, MapRow>, items: seq<Item>, ps: seq<Process>, p: Process, q: Process)
    requires NamesOk(totals, items, ps, p, 0)
    ensures NamesOk(totals, items, ps, q, 0)
  {
    hide Agrees, GroupTotal, Keys, Users;
  }

  method MapTotals(ps: seq<Process>) returns (totals: map<string, MapRow>)
    ensures NamesOk(totals, Flat(ps), ps, NOBODY, 0)
  {
    hide NamesOk, Flat, Heads;
    totals := map[];
    NoNames();
    for n := 0 to |ps|
      invariant NamesOk(totals, Flat(ps[..n]), ps[..n], NOBODY, 0)
    {
      var p := ps[n];
      ghost var items := Flat(ps[..n]);
      assert ps[..n + 1] == ps[..n] + [p];
      FlatAppend(ps[..n], p);
      OtherProcess(totals, items, ps[..n], NOBODY, p);
      if p.hidden {
        SkippedProcess(totals, items, ps[..n], p, NOBODY);
        assert items + [] == items;
        continue;
      }
      totals := AddNames(totals, items, ps[..n], p);
      assert p.maps == [] ==> ItemsOf(p, |p.maps|) == [];
      NextProcess(totals, items + ItemsOf(p, |p.maps|), ps[..n], p, NOBODY);
    }
    assert ps[..|ps|] == ps;
  }

  lemma NoNames()
    ensures NamesOk(map[], Flat([]), [], NOBODY, 0)
  {
  }

  // Agreement of the reports.

  /** The sum of a column over all rows of a report. */
  ghost function ReportTotal(ps: seq<Process>, g: Grouping, c: Column): nat {
    SumOver(Keys(Flat(ps), g), x => GroupTotal(Flat(ps), g, x, c))
  }

  lemma {:induction false} ReportTotalIs(ps: seq<Process>, g: Grouping, c: Column)
    ensures ReportTotal(ps, g, c) == Total(Flat(ps), c)
  {
    hide Flat, GroupTotal, Total, SumOver;
    GroupsAddUp(Flat(ps), Keys(Flat(ps), g), g, c);
  }

  /** Each memory field, and the number of mappings, has the same total in all three reports. */
  lemma {:induction false} ReportsAgree(ps: seq<Process>, c: Column)
    ensures ReportTotal(ps, ByPid, c) == ReportTotal(ps, ByUser, c) == ReportTotal(ps, ByName, c)
            == Total(Flat(ps), c)
  {
    hide ReportTotal;
    ReportTotalIs(ps, ByPid, c);
    ReportTotalIs(ps, ByUser, c);
    ReportTotalIs(ps, ByName, c);
  }

  lemma {:induction false} CountTotal(items: seq<Item>)
    ensures Total(items, Mappings) == |items|
  {
    if items != [] {
      CountTotal(items[..|items| - 1]);
    }
  }

  lemma {:induction false} PidCount(ps: seq<Process>)
    requires DistinctPids(ps)
    ensures |Keys(Flat(ps), ByPid)| == |Heads(ps)|
  {
    if ps != [] {
      var init, p := ps[..|ps| - 1], ps[|ps| - 1];
      PidCount(init);
      assert ps == init + [p];
      NewPid(ps, |ps| - 1);
      FlatAppend(init, p);
      if Reported(p) {
        KeysOfProcess(Flat(init), p, ByPid);
      } else {
        assert Flat(ps) == Flat(init) && Heads(ps) == Heads(init);
      }
    }
  }

  /** The tables by their keys. */
  ghost function PidTable(totals: map<int, PidRow>): map<Key, Totals> {
    map q | q in totals :: Pid(q) := totals[q].t
  }

  ghost function UserTable(totals: map<int, UserRow>): map<Key, Totals> {
    map u | u in totals :: User(u) := totals[u].t
  }

  ghost function NameTable(totals: map<string, MapRow>): map<Key, Totals> {
    map n | n in totals :: Name(n) := totals[n].t
  }

  function Cell(table: map<Key, Totals>, x: Key, k: Field): nat {
    if x in table && k in table[x] then table[x][k] else 0
  }

  /** The sum of a field over the rows of a table, as it is printed below the table. */
  ghost function ColumnSum(table: map<Key, Totals>, k: Field): nat {
    SumOver(table.Keys, x => Cell(table, x, k))
  }

  lemma {:induction false} SumSame(keys: set<Key>, f: Key -> nat, f': Key -> nat)
    requires forall y :: y in keys ==> f(y) == f'(y)
    ensures SumOver(keys, f) == SumOver(keys, f')
  {
    SumChange(keys, f, f', Pid(0), 0);
  }

  /** A table whose rows are the group totals sums up to the total of all mappings. */
  lemma {:induction false} ColumnSumIs(ps: seq<Process>, g: Grouping, table: map<Key, Totals>, k: Field)
    requires forall x :: x in table <==> x in Keys(Flat(ps), g)
    requires forall x :: x in table ==> Agrees(table[x], Flat(ps), g, x)
    ensures ColumnSum(table, k) == Total(Flat(ps), Memory(k))
  {
    hide Flat, GroupTotal, SumOver, Total;
    assert table.Keys == Keys(Flat(ps), g);
    SumSame(table.Keys, x => GroupTotal(Flat(ps), g, x, Memory(k)), x => Cell(table, x, k));
    ReportTotalIs(ps, g, Memory(k));
  }

  lemma {:induction false} PidTableSum(ps: seq<Process>, totals: map<int, PidRow>, k: Field)
    requires PidsOk(totals, Flat(ps))
    ensures ColumnSum(PidTable(totals), k) == Total(Flat(ps), Memory(k))
  {
    hide Flat, Heads, GroupTotal, ColumnSum, Total, Agrees, Users;
    ColumnSumIs(ps, ByPid, PidTable(totals), k);
  }

  lemma {:induction false} UserTableSum(ps: seq<Process>, totals: map<int, UserRow>, k: Field)
    requires UsersOk(totals, Flat(ps), Heads(ps))
    ensures ColumnSum(UserTable(totals), k) == Total(Flat(ps), Memory(k))
  {
    hide Flat, Heads, GroupTotal, ColumnSum, Total, Agrees, Users;
    ColumnSumIs(ps, ByUser, UserTable(totals), k);
  }

  lemma {:induction false} NameTableSum(ps: seq<Process>, totals: map<string, MapRow>, k: Field)
    requires NamesOk(totals, Flat(ps), ps, NOBODY, 0)
    ensures ColumnSum(NameTable(totals), k) == Total(Flat(ps), Memory(k))
  {
    hide Flat, Heads, GroupTotal, ColumnSum, Total, Agrees, Users;
    ColumnSumIs(ps, ByName, NameTable(totals), k);
  }

  /**
   The three tables agree: for every memory field, the column sums of the tables by process,
   by user and by mapping name are equal.
   */
  lemma {:induction false} TablesAgree(ps: seq<Process>, pids: map<int, PidRow>, users: map<int, UserRow>,
                                       names: map<string, MapRow>, k: Field)
    requires PidsOk(pids, Flat(ps)) && UsersOk(users, Flat(ps), Heads(ps))
    requires NamesOk(names, Flat(ps), ps, NOBODY, 0)
    ensures ColumnSum(PidTable(pids), k) == ColumnSum(UserTable(users), k)
            == ColumnSum(NameTable(names), k) == Total(Flat(ps), Memory(k))
  {
    hide Flat, Heads, GroupTotal, ColumnSum, Total, PidsOk, UsersOk, NamesOk, PidTable, UserTable, NameTable;
    PidTableSum(ps, pids, k);
    UserTableSum(ps, users, k);
    NameTableSum(ps, names, k);
  }

  // The columns of counts.

  ghost function CountSum(counts: map<Key, nat>): nat {
    SumOver(counts.Keys, x => if x in counts then counts[x] else 0)
  }

  /** The number of mappings in the process report. */
  ghost function MapsColumn(totals: map<int, PidRow>): map<Key, nat> {
    map q | q in totals :: Pid(q) := totals[q].maps
  }

  /** The number of processes in the user report. */
  ghost function ProcessesColumn(totals: map<int, UserRow>): map<Key, nat> {
    map u | u in totals :: User(u) := totals[u].count
  }

  /** The number of mappings in the mapping report. */
  ghost function MappingsColumn(totals: map<string, MapRow>): map<Key, nat> {
    map n | n in totals :: Name(n) := totals[n].count
  }

  /** A column whose cells count the items of each group sums up to the number of items. */
  lemma {:induction false} CountSumIs(items: seq<Item>, g: Grouping, counts: map<Key, nat>)
    requires forall i :: i in items ==> KeyOf(i, g) in counts
    requires forall x :: x in counts ==> counts[x] == GroupTotal(items, g, x, Mappings)
    ensures CountSum(counts) == |items|
  {
    hide GroupTotal, SumOver, Total, KeyOf;
    GroupsAddUp(items, counts.Keys, g, Mappings);
    SumSame(counts.Keys, x => GroupTotal(items, g, x, Mappings), x => if x in counts then counts[x] else 0);
    CountTotal(items);
  }

  lemma KeysOfItems(items: seq<Item>, g: Grouping, i: Item)
    requires i in items
    ensures KeyOf(i, g) in Keys(items, g)
  {
  }

  lemma MapsColumnSum(ps: seq<Process>, pids: map<int, PidRow>)
    requires PidsOk(pids, Flat(ps))
    ensures CountSum(MapsColumn(pids)) == |Flat(ps)|
  {
    hide Flat, GroupTotal, CountSum, Agrees, Keys;
    forall i | i in Flat(ps)
      ensures KeyOf(i, ByPid) in MapsColumn(pids)
    {
      KeysOfItems(Flat(ps), ByPid, i);
      assert i.pid in pids;
    }
    CountSumIs(Flat(ps), ByPid, MapsColumn(pids));
  }

  lemma MappingsColumnSum(ps: seq<Process>, names: map<string, MapRow>)
    requires NamesOk(names, Flat(ps), ps, NOBODY, 0)
    ensures CountSum(MappingsColumn(names)) == |Flat(ps)|
  {
    hide Flat, GroupTotal, CountSum, Agrees, Keys, Users;
    forall i | i in Flat(ps)
      ensures KeyOf(i, ByName) in MappingsColumn(names)
    {
      KeysOfItems(Flat(ps), ByName, i);
      assert i.m.name in names;
    }
    CountSumIs(Flat(ps), ByName, MappingsColumn(names));
  }

  lemma ProcessesColumnSum(ps: seq<Process>, users: map<int, UserRow>)
    requires UsersOk(users, Flat(ps), Heads(ps))
    ensures CountSum(ProcessesColumn(users)) == |Heads(ps)|
  {
    hide Flat, Heads, GroupTotal, CountSum, Agrees, Keys;
    HeadKeys(ps, ByUser);
    forall i | i in Heads(ps)
      ensures KeyOf(i, ByUser) in ProcessesColumn(users)
    {
      KeysOfItems(Heads(ps), ByUser, i);
      assert i.uid in users;
    }
    CountSumIs(Heads(ps), ByUser, ProcessesColumn(users));
  }

  lemma {:induction false} OnlyPids(items: seq<Item>, x: Key)
    requires x in Keys(items, ByPid)
    ensures x.Pid?
  {
  }

  /**
   The columns of counts: the mappings of the process report and those of the mapping report
   sum to the same number, and the processes of the user report to the number of rows of the
   process report.
   */
  lemma {:induction false} CountColumnsAgree(ps: seq<Process>, pids: map<int, PidRow>, users: map<int, UserRow>,
                                             names: map<string, MapRow>)
    requires DistinctPids(ps) && PidsOk(pids, Flat(ps)) && UsersOk(users, Flat(ps), Heads(ps))
    requires NamesOk(names, Flat(ps), ps, NOBODY, 0)
    ensures CountSum(MapsColumn(pids)) == CountSum(MappingsColumn(names)) == |Flat(ps)|
    ensures CountSum(ProcessesColumn(users)) == |PidTable(pids).Keys| == |Heads(ps)|
  {
    hide Flat, Heads, GroupTotal, CountSum, Agrees, UsersOk, NamesOk, DistinctPids, Keys;
    MapsColumnSum(ps, pids);
    MappingsColumnSum(ps, names);
    ProcessesColumnSum(ps, users);
    PidCount(ps);
    forall x | x in Keys(Flat(ps), ByPid)
      ensures x.Pid?
    {
      OnlyPids(Flat(ps), x);
    }
    assert PidTable(pids).Keys == Keys(Flat(ps), ByPid);
  }

  // The columns headed VSS.

  /** The field that a report shows under VSS; the user report shows another one than the others. */
  function VssField(g: Grouping): Field {
    if g.ByUser? then Pss else Size
  }

  ghost function VssSum(table: map<Key, Totals>, g: Grouping): nat {
    ColumnSum(table, VssField(g))
  }

  /** The proportional share of a mapping is at most its size. */
  ghost predicate Proportional(items: seq<Item>) {
    forall i :: i in items ==> Get(i.m, Pss) <= Get(i.m, Size)
  }

  /** All pages of every mapping are present and not shared. */
  ghost predicate AllOwned(items: seq<Item>) {
    forall i :: i in items ==> Get(i.m, Pss) == Get(i.m, Size)
  }

  lemma {:induction false} TotalsIff(items: seq<Item>)
    requires Proportional(items)
    ensures Total(items, Memory(Pss)) <= Total(items, Memory(Size))
    ensures Total(items, Memory(Pss)) == Total(items, Memory(Size)) <==> AllOwned(items)
  {
    if items != [] {
      var init, i := items[..|items| - 1], items[|items| - 1];
      assert forall j :: j in init ==> j in items;
      TotalsIff(init);
      assert i in items;
      assert forall j :: j in items ==> j in init || j == i;
    }
  }

  /**
   The VSS columns of the process and the mapping report always have the same sum. That of
   the user report has it if and only if every mapping shown has a proportional size that
   equals its size.
   */
  lemma {:induction false} VssColumnsIff(ps: seq<Process>, pids: map<int, PidRow>, users: map<int, UserRow>,
                                         names: map<string, MapRow>)
    requires PidsOk(pids, Flat(ps)) && UsersOk(users, Flat(ps), Heads(ps))
    requires NamesOk(names, Flat(ps), ps, NOBODY, 0) && Proportional(Flat(ps))
    ensures VssSum(PidTable(pids), ByPid) == VssSum(NameTable(names), ByName)
    ensures VssSum(UserTable(users), ByUser) == VssSum(PidTable(pids), ByPid) <==> AllOwned(Flat(ps))
  {
    hide Flat, Heads, Total, ColumnSum, PidsOk, UsersOk, NamesOk, PidTable, UserTable, NameTable, Proportional, AllOwned;
    TablesAgree(ps, pids, users, names, Pss);
    TablesAgree(ps, pids, users, names, Size);
    TotalsIff(Flat(ps));
  }

  /** One process with one mapping of 4 kB that is not present. */
  const UNTOUCHED := Process(1, 1, false, [Mapping("a", map[Size := 4])])

  /** Its virtual size is 4 in the process report and 0 in the user report. */
  lemma VssDiffers(pids: map<int, PidRow>, users: map<int, UserRow>)
    requires PidsOk(pids, Flat([UNTOUCHED])) && UsersOk(users, Flat([UNTOUCHED]), Heads([UNTOUCHED]))
    ensures VssSum(PidTable(pids), ByPid) == 4 && VssSum(UserTable(users), ByUser) == 0
  {
    hide ColumnSum, PidTable, UserTable, PidsOk, UsersOk;
    PidTableSum([UNTOUCHED], pids, Size);
    UserTableSum([UNTOUCHED], users, Pss);
    OneMapping();
  }

  lemma OneProcess(p: Process)
    requires !p.hidden && |p.maps| == 1
    ensures Flat([p]) == [Item(p.pid, p.uid, p.maps[0])]
  {
    assert [p][..0] == [];
    assert ItemsOf(p, 1) == ItemsOf(p, 0) + [Item(p.pid, p.uid, p.maps[0])];
  }

  lemma OneItem(i: Item, c: Column)
    ensures Total([i], c) == Amount(i.m, c)
  {
    assert [i][..0] == [];
  }

  lemma OneMapping()
    ensures Total(Flat([UNTOUCHED]), Memory(Size)) == 4 && Total(Flat([UNTOUCHED]), Memory(Pss)) == 0
  {
    hide Flat, Total;
    OneProcess(UNTOUCHED);
    OneItem(Item(1, 1, UNTOUCHED.maps[0]), Memory(Size));
    OneItem(Item(1, 1, UNTOUCHED.maps[0]), Memory(Pss));
  }
}
