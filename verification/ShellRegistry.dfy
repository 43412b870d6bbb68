/** The registry of shell sessions and of each machine's default shell. */
module ShellRegistry {
  import opened Seqs

  datatype Entry = Entry(machine: string, purpose: string)

  /** The two dictionaries; `order` is the insertion order of the first. */
  datatype Shells = Shells(order: seq<string>, entries: map<string, Entry>, defaults: map<string, string>)

  const NO_SHELLS := Shells([], map[], map[])

  ghost predicate Distinct(names: seq<string>) {
    forall i, j :: 0 <= i < j < |names| ==> names[i] != names[j]
  }

  ghost predicate WellFormed(r: Shells) {
    Distinct(r.order) && (forall id :: id in r.order <==> id in r.entries)
  }

  /** Every default names a registered shell of that machine. */
  ghost predicate DefaultsLive(r: Shells) {
    forall m :: m in r.defaults ==> r.defaults[m] in r.entries && r.entries[r.defaults[m]].machine == m
  }

  /** Generated ids are new, and never empty. */
  predicate FreshId(r: Shells, id: string) { id != "" && id !in r.order && id !in r.entries }

  function Without(order: seq<string>, gone: set<string>): seq<string> {
    if order == [] then []
    else if order[0] in gone then Without(order[1..], gone)
    else [order[0]] + Without(order[1..], gone)
  }

  // ---------------------------------------------------------------- the operations on values

  function Publish(r: Shells, id: string, e: Entry): Shells {
    r.(order := r.order + [id], entries := r.entries[id := e])
  }

  function OpenShell(r: Shells, machine: string, purpose: string, healthy: bool, id: string): (Shells, bool) {
    if healthy then (Publish(r, id, Entry(machine, purpose)), true) else (r, false)
  }

  /** Removing shells of one machine; its default goes with them. */
  function RemoveAll(r: Shells, gone: set<string>, machine: string): Shells {
    Shells(Without(r.order, gone), r.entries - gone,
           if machine in r.defaults && r.defaults[machine] in gone then r.defaults - {machine} else r.defaults)
  }

  function CloseShell(r: Shells, id: string): (Shells, bool) {
    if id !in r.entries then (r, false) else (RemoveAll(r, {id}, r.entries[id].machine), true)
  }

  predicate HasDefault(r: Shells, machine: string) {
    machine in r.defaults && r.defaults[machine] != "" && r.defaults[machine] in r.entries
  }

  /** `made` is whether the factory and the health check succeed. */
  function DefaultShell(r: Shells, machine: string, made: bool, id: string): (Shells, Option<string>) {
    if HasDefault(r, machine) then (r, Some(r.defaults[machine]))
    else if !made then (r, None)
    else
      var t := Publish(r, id, Entry(machine, "default"));
      (t.(defaults := t.defaults[machine := id]), Some(id))
  }

  function ChooseDefault(r: Shells, id: string): (Shells, Option<string>) {
    if id !in r.entries then (r, None)
    else
      var machine := r.entries[id].machine;
      (r.(defaults := r.defaults[machine := id]), Some(machine))
  }

  datatype Row = Row(id: string, machine: string, purpose: string, isDefault: bool)

  function RowOf(r: Shells, id: string): Row
    requires id in r.entries
  {
    var e := r.entries[id];
    Row(id, e.machine, e.purpose, e.machine in r.defaults && r.defaults[e.machine] == id)
  }

  /** The listing's filter: no machine, or an empty name, lists everything. */
  predicate Listed(e: Entry, machine: Option<string>) {
    machine.None? || machine.value == "" || e.machine == machine.value
  }

  function RowsOf(r: Shells, ids: seq<string>, machine: Option<string>): seq<Row>
    requires forall id :: id in ids ==> id in r.entries
  {
    if ids == [] then []
    else
      var n := |ids| - 1;
      assert ids[n] in ids && forall id :: id in ids[..n] ==> id in ids;
      RowsOf(r, ids[..n], machine) + (if Listed(r.entries[ids[n]], machine) then [RowOf(r, ids[n])] else [])
  }

  function CountOf(r: Shells, ids: seq<string>, machine: string): nat
    requires forall id :: id in ids ==> id in r.entries
  {
    if ids == [] then 0
    else
      var n := |ids| - 1;
      assert ids[n] in ids && forall id :: id in ids[..n] ==> id in ids;
      CountOf(r, ids[..n], machine) + (if r.entries[ids[n]].machine == machine then 1 else 0)
  }

  /** The ids of a machine's shells. */
  function Of(r: Shells, machine: string): set<string> {
    set id | id in r.entries && r.entries[id].machine == machine
  }

  function CloseMachine(r: Shells, machine: string): Shells { RemoveAll(r, Of(r, machine), machine) }

  // ---------------------------------------------------------------- lemmas about them

  lemma {:induction false} WithoutMembers(order: seq<string>, gone: set<string>)
    ensures forall id :: id in Without(order, gone) <==> id in order && id !in gone
  {
    if order != [] { WithoutMembers(order[1..], gone); }
  }

  lemma {:induction false} WithoutDistinct(order: seq<string>, gone: set<string>)
    requires Distinct(order)
    ensures Distinct(Without(order, gone))
  {
    if order != [] {
      assert Distinct(order[1..]) && order[0] !in order[1..];
      WithoutDistinct(order[1..], gone);
      WithoutMembers(order[1..], gone);
      if order[0] !in gone { ConsDistinct(order[0], Without(order[1..], gone)); }
    }
  }

  lemma {:induction false} WithoutTwice(order: seq<string>, a: set<string>, b: set<string>)
    ensures Without(Without(order, a), b) == Without(order, a + b)
  {
    if order != [] {
      WithoutTwice(order[1..], a, b);
      if order[0] !in a {
        assert Without(order, a)[1..] == Without(order[1..], a);
      }
    }
  }

  lemma {:induction false} WithoutNone(order: seq<string>)
    ensures Without(order, {}) == order
  {
    if order != [] { WithoutNone(order[1..]); }
  }

  lemma RemoveKeeps(r: Shells, gone: set<string>, machine: string)
    requires WellFormed(r)
    ensures WellFormed(RemoveAll(r, gone, machine))
    ensures DefaultsLive(r) && (forall id :: id in gone && id in r.entries ==> r.entries[id].machine == machine) ==>
              DefaultsLive(RemoveAll(r, gone, machine))
  {
    WithoutMembers(r.order, gone);
    WithoutDistinct(r.order, gone);
  }

  lemma RemoveTwice(r: Shells, gone: set<string>, id: string, machine: string)
    ensures RemoveAll(RemoveAll(r, gone, machine), {id}, machine) == RemoveAll(r, gone + {id}, machine)
  {
    WithoutTwice(r.order, gone, {id});
    assert r.entries - gone - {id} == r.entries - (gone + {id});
  }

  lemma RemoveNone(r: Shells, machine: string)
    ensures RemoveAll(r, {}, machine) == r
  {
    WithoutNone(r.order);
    assert r.entries - {} == r.entries;
  }

  lemma PublishKeeps(r: Shells, id: string, e: Entry)
    requires WellFormed(r) && FreshId(r, id)
    ensures WellFormed(Publish(r, id, e))
    ensures DefaultsLive(r) ==> DefaultsLive(Publish(r, id, e))
  {
    var t := Publish(r, id, e);
    forall i, j | 0 <= i < j < |t.order| ensures t.order[i] != t.order[j] {
      if j == |r.order| { assert t.order[i] in r.order; }
    }
  }

  /** Counting agrees with listing except that an empty name lists everything. */
  lemma CountIsListLength(r: Shells, machine: string)
    requires WellFormed(r)
    ensures CountOf(r, r.order, machine) == |RowsOf(r, r.order, Some(machine))| <==>
            machine != "" || forall id :: id in r.entries ==> r.entries[id].machine == ""
  {
    CountVsRows(r, r.order, machine);
  }

  lemma {:induction false} CountVsRows(r: Shells, ids: seq<string>, machine: string)
    requires forall id :: id in ids ==> id in r.entries
    ensures machine != "" ==> CountOf(r, ids, machine) == |RowsOf(r, ids, Some(machine))|
    ensures machine == "" ==> |RowsOf(r, ids, Some(machine))| == |ids| >= CountOf(r, ids, machine)
    ensures machine == "" ==>
              (CountOf(r, ids, machine) == |ids| <==> forall id :: id in ids ==> r.entries[id].machine == "")
  {
    if ids != [] {
      var n := |ids| - 1;
      assert ids == ids[..n] + [ids[n]];
      assert forall id :: id in ids <==> id in ids[..n] || id == ids[n];
      CountVsRows(r, ids[..n], machine);
    }
  }

  /** Rows are the shells of the machine, in registration order, without repetition. */
  lemma {:induction false} RowsFaithful(r: Shells, ids: seq<string>, machine: Option<string>)
    requires Distinct(ids) && forall id :: id in ids ==> id in r.entries
    ensures forall row :: row in RowsOf(r, ids, machine) ==>
              row.id in ids && Listed(r.entries[row.id], machine) && row == RowOf(r, row.id)
    ensures forall id :: id in ids && Listed(r.entries[id], machine) ==> RowOf(r, id) in RowsOf(r, ids, machine)
    ensures forall i, j :: 0 <= i < j < |RowsOf(r, ids, machine)| ==>
              RowsOf(r, ids, machine)[i].id != RowsOf(r, ids, machine)[j].id
  {
    if ids != [] {
      var n := |ids| - 1;
      var shorter := RowsOf(r, ids[..n], machine);
      assert ids == ids[..n] + [ids[n]];
      assert forall id :: id in ids <==> id in ids[..n] || id == ids[n];
      assert ids[n] !in ids[..n];
      RowsFaithful(r, ids[..n], machine);
      forall i, j | 0 <= i < j < |RowsOf(r, ids, machine)|
        ensures RowsOf(r, ids, machine)[i].id != RowsOf(r, ids, machine)[j].id
      {
        assert RowsOf(r, ids, machine)[i] == shorter[i] && shorter[i] in shorter;
      }
    }
  }

  /** Among listed shells, at most one per machine is the default. */
  lemma OneDefault(r: Shells, machine: Option<string>, i: nat, j: nat)
    requires WellFormed(r)
    requires i < j < |RowsOf(r, r.order, machine)|
    ensures var rows := RowsOf(r, r.order, machine);
            rows[i].machine == rows[j].machine ==> !(rows[i].isDefault && rows[j].isDefault)
  {
    RowsFaithful(r, r.order, machine);
    var rows := RowsOf(r, r.order, machine);
    assert rows[i] in rows && rows[j] in rows;
  }

  /** The listed ids whose shell is on the machine. */
  function IdsOn(r: Shells, ids: seq<string>, machine: string): seq<string>
    requires forall id :: id in ids ==> id in r.entries
  {
    if ids == [] then []
    else
      assert ids[0] in ids && forall id :: id in ids[1..] ==> id in ids;
      var rest := IdsOn(r, ids[1..], machine);
      if r.entries[ids[0]].machine == machine then [ids[0]] + rest else rest
  }

  lemma {:induction false} IdsOnMembers(r: Shells, ids: seq<string>, machine: string)
    requires Distinct(ids) && forall id :: id in ids ==> id in r.entries
    ensures forall id :: id in IdsOn(r, ids, machine) <==> id in ids && r.entries[id].machine == machine
    ensures Distinct(IdsOn(r, ids, machine))
  {
    if ids != [] {
      assert Distinct(ids[1..]) && ids[0] !in ids[1..];
      assert forall id :: id in ids <==> id == ids[0] || id in ids[1..];
      IdsOnMembers(r, ids[1..], machine);
      ConsDistinct(ids[0], IdsOn(r, ids[1..], machine));
    }
  }

  lemma ConsDistinct(first: string, rest: seq<string>)
    requires Distinct(rest) && first !in rest
    ensures Distinct([first] + rest)
  {
    var all := [first] + rest;
    forall i, j | 0 <= i < j < |all| ensures all[i] != all[j] {
      assert all[j] == rest[j - 1] && all[j] in rest;
      if i > 0 { assert all[i] == rest[i - 1]; }
    }
  }

  lemma CloseIsRemove(r: Shells, id: string)
    requires id in r.entries
    ensures CloseShell(r, id) == (RemoveAll(r, {id}, r.entries[id].machine), true)
  {
  }

  lemma RemovedEntries(r: Shells, gone: set<string>, machine: string)
    ensures RemoveAll(r, gone, machine).entries == r.entries - gone
  {
  }

  /** A default shell, once there is one, is a live shell of the machine, is listed as its default,
      and is what every later call returns. */
  lemma DefaultShellStable(r: Shells, machine: string, made: bool, id: string, madeAgain: bool, again: string)
    requires WellFormed(r) && DefaultsLive(r) && FreshId(r, id)
    requires DefaultShell(r, machine, made, id).1.Some?
    ensures var (t, shell) := DefaultShell(r, machine, made, id);
            && shell.value in t.entries && t.entries[shell.value].machine == machine
            && RowOf(t, shell.value).isDefault
            && DefaultShell(t, machine, madeAgain, again) == (t, shell)
            && (forall other :: other in r.entries ==> other in t.entries && t.entries[other] == r.entries[other])
  {
  }

  // ---------------------------------------------------------------- what each operation changes

  /** Filtering keeps the order of what stays. */
  lemma {:induction false} WithoutConcat(a: seq<string>, b: seq<string>, gone: set<string>)
    ensures Without(a + b, gone) == Without(a, gone) + Without(b, gone)
    ensures (forall id :: id in a ==> id !in gone) ==> Without(a, gone) == a
  {
    if a == [] {
      assert a + b == b;
    } else {
      assert (a + b)[1..] == a[1..] + b;
      WithoutConcat(a[1..], b, gone);
    }
  }

  /** Opening: a healthy session is added last, under its id, and no default changes; an unhealthy one changes nothing. */
  lemma OpenEffect(r: Shells, machine: string, purpose: string, healthy: bool, id: string)
    ensures var (t, ok) := OpenShell(r, machine, purpose, healthy, id);
            && ok == healthy && (!healthy ==> t == r)
            && (healthy ==> t.order == r.order + [id] && t.entries == r.entries[id := Entry(machine, purpose)]
                            && t.defaults == r.defaults)
  {
  }

  /** Closing: exactly that shell goes, the others keep their order, and its machine's default goes only if it was it. */
  lemma CloseEffect(r: Shells, id: string)
    requires WellFormed(r)
    ensures var (t, found) := CloseShell(r, id);
            && found == (id in r.entries) && (!found ==> t == r)
            && t.entries.Keys == r.entries.Keys - {id}
            && (forall other :: other in t.entries ==> t.entries[other] == r.entries[other])
            && (forall a, b :: r.order == a + [id] + b ==> t.order == a + b)
            && (forall m :: m in t.defaults <==>
                  m in r.defaults && !(found && r.entries[id].machine == m && r.defaults[m] == id))
            && (forall m :: m in t.defaults ==> t.defaults[m] == r.defaults[m])
  {
    hide Without;
    if id in r.entries {
      forall a, b | r.order == a + [id] + b ensures CloseShell(r, id).0.order == a + b { OrderWithout(a, id, b, r.order); }
    }
  }

  lemma OrderWithout(a: seq<string>, name: string, b: seq<string>, order: seq<string>)
    requires Distinct(order) && order == a + [name] + b
    ensures Without(order, {name}) == a + b
  {
    Apart(order, a, name, b);
    WithoutConcat(a + [name], b, {name});
    WithoutConcat(a, [name], {name});
    WithoutConcat(b, [], {name});
    assert Without([name], {name}) == [] && Without(a, {name}) + [] == Without(a, {name}) && b + [] == b;
  }

  lemma Apart(order: seq<string>, a: seq<string>, id: string, b: seq<string>)
    requires Distinct(order) && order == a + [id] + b
    ensures id !in a && id !in b && forall x :: x in a ==> exists i :: 0 <= i < |a| && order[i] == x
  {
    assert order[|a|] == id;
    forall x | x in a ensures x != id && exists i :: 0 <= i < |a| && order[i] == x {
      var i :| 0 <= i < |a| && a[i] == x;
      assert order[i] == x;
    }
    forall x | x in b ensures x != id {
      var j :| 0 <= j < |b| && b[j] == x;
      assert order[|a| + 1 + j] == x;
    }
  }

  /** The default shell: the live one as it is; else a new one on the machine, which becomes its default and no other's. */
  lemma DefaultEffect(r: Shells, machine: string, made: bool, id: string)
    requires DefaultsLive(r) && "" !in r.entries
    ensures var (t, shell) := DefaultShell(r, machine, made, id);
            && (machine in r.defaults ==> t == r && shell == Some(r.defaults[machine]))
            && (machine !in r.defaults && !made ==> t == r && shell.None?)
            && (machine !in r.defaults && made ==>
                  && shell == Some(id) && t.order == r.order + [id]
                  && t.entries == r.entries[id := Entry(machine, "default")] && t.defaults == r.defaults[machine := id])
  {
  }

  /** Choosing: the shell becomes the default of its own machine; an unknown one changes nothing. */
  lemma ChooseEffect(r: Shells, id: string)
    ensures var (t, machine) := ChooseDefault(r, id);
            && machine.Some? == (id in r.entries) && (t.order, t.entries) == (r.order, r.entries)
            && (id !in r.entries ==> t == r)
            && (id in r.entries ==> machine.value == r.entries[id].machine && t.defaults == r.defaults[r.entries[id].machine := id])
  {
  }

  /** A row has the shell's own fields, and is marked default exactly when its machine's default is this shell. */
  lemma RowFields(r: Shells, ids: seq<string>, machine: Option<string>, row: Row)
    requires Distinct(ids) && forall id :: id in ids ==> id in r.entries
    ensures row in RowsOf(r, ids, machine) <==>
            && row.id in ids && r.entries[row.id] == Entry(row.machine, row.purpose)
            && (machine in {None, Some("")} || machine == Some(row.machine))
            && (row.isDefault <==> row.machine in r.defaults && r.defaults[row.machine] == row.id)
  {
    hide RowsOf;
    RowsFaithful(r, ids, machine);
    if row.id in ids && Listed(r.entries[row.id], machine) { assert RowOf(r, row.id) in RowsOf(r, ids, machine); }
  }

  /** Rows come in the order of the ids. */
  lemma {:induction false} RowsConcat(r: Shells, a: seq<string>, b: seq<string>, machine: Option<string>)
    requires forall id :: id in a + b ==> id in r.entries
    ensures forall id :: id in a ==> id in r.entries
    ensures forall id :: id in b ==> id in r.entries
    ensures RowsOf(r, a + b, machine) == RowsOf(r, a, machine) + RowsOf(r, b, machine)
    decreases |b|
  {
    forall id | id in a ensures id in r.entries { assert id in a + b; }
    forall id | id in b ensures id in r.entries { assert id in a + b; }
    if b == [] {
      assert a + b == a && RowsOf(r, a, machine) + [] == RowsOf(r, a, machine);
    } else {
      var n := |b| - 1;
      assert (a + b)[..|a| + n] == a + b[..n] && (a + b)[|a| + n] == b[n];
      forall id | id in a + b[..n] ensures id in r.entries { assert id in a + b; }
      RowsConcat(r, a, b[..n], machine);
    }
  }

  // ---------------------------------------------------------------- the object

  class ShellRegistry {
    var order: seq<string>
    var entries: map<string, Entry>
    var defaults: map<string, string>

    function Now(): Shells
      reads this
    {
      Shells(order, entries, defaults)
    }

    constructor ()
      ensures Now() == NO_SHELLS
    {
      order, entries, defaults := [], map[], map[];
    }

    /** The health check's outcome is a parameter, and so is the generated id. */
    method Open(machine: string, purpose: string, healthy: bool, id: string) returns (ok: bool)
      requires FreshId(Now(), id)
      modifies this
      ensures (Now(), ok) == OpenShell(old(Now()), machine, purpose, healthy, id)
    {
      if !healthy { return false; }
      order := order + [id];
      entries := entries[id := Entry(machine, purpose)];
      return true;
    }

    method Close(id: string) returns (found: bool)
      modifies this
      ensures (Now(), found) == CloseShell(old(Now()), id)
    {
      if id !in entries { return false; }
      var machine := entries[id].machine;
      order := Without(order, {id});
      entries := entries - {id};
      if machine in defaults && defaults[machine] == id { defaults := defaults - {machine}; }
      return true;
    }

    method GetOrCreateDefault(machine: string, made: bool, id: string) returns (shell: Option<string>)
      requires FreshId(Now(), id)
      modifies this
      ensures (Now(), shell) == DefaultShell(old(Now()), machine, made, id)
    {
      if machine in defaults {
        var existing := defaults[machine];
        if existing != "" && existing in entries { return Some(existing); }
      }
      var ok := Open(machine, "default", made, id);
      if !ok { return None; }
      defaults := defaults[machine := id];
      return Some(id);
    }

    method SetDefault(id: string) returns (machine: Option<string>)
      modifies this
      ensures (Now(), machine) == ChooseDefault(old(Now()), id)
    {
      if id !in entries { return None; }
      machine := Some(entries[id].machine);
      defaults := defaults[machine.value := id];
    }

    method ListShells(machine: Option<string>) returns (rows: seq<Row>)
      requires WellFormed(Now())
      ensures rows == RowsOf(Now(), order, machine)
    {
      rows := [];
      var i := 0;
      assert order[..0] == [];
      while i < |order|
        invariant 0 <= i <= |order|
        invariant forall id :: id in order[..i] ==> id in entries
        invariant rows == RowsOf(Now(), order[..i], machine)
      {
        var id := order[i];
        assert id in order && order[..i + 1][..i] == order[..i];
        if Listed(entries[id], machine) { rows := rows + [RowOf(Now(), id)]; }
        i := i + 1;
      }
      assert order[..i] == order;
    }

    method CountShells(machine: Option<string>) returns (n: nat)
      requires WellFormed(Now())
      ensures n == if machine.None? then |order| else CountOf(Now(), order, machine.value)
    {
      if machine.None? { return |order|; }
      n := 0;
      assert order[..0] == [];
      for i := 0 to |order|
        invariant forall id :: id in order[..i] ==> id in entries
        invariant n == CountOf(Now(), order[..i], machine.value)
      {
        assert order[i] in order && order[..i + 1][..i] == order[..i];
        if entries[order[i]].machine == machine.value { n := n + 1; }
      }
      assert order[..|order|] == order;
    }

    method CloseAllForMachine(machine: string) returns (count: nat)
      requires WellFormed(Now())
      modifies this
      ensures Now() == CloseMachine(old(Now()), machine)
      ensures count == |Of(old(Now()), machine)|
    {
      hide CloseShell, RemoveAll, IdsOn;
      ghost var was := Now();
      var victims := IdsOn(Now(), order, machine);
      IdsOnMembers(was, order, machine);
      count := 0;
      ghost var gone: set<string> := {};
      RemoveNone(was, machine);
      for i := 0 to |victims|
        invariant gone == set id | id in victims[..i]
        invariant Now() == RemoveAll(was, gone, machine)
        invariant count == i == |gone|
      {
        var id := victims[i];
        assert id in victims && id !in gone;
        RemovedEntries(was, gone, machine);
        CloseIsRemove(Now(), id);
        var found := Close(id);
        RemoveTwice(was, gone, id, machine);
        gone := gone + {id};
        count := count + 1;
      }
      assert victims[..|victims|] == victims;
      assert gone == Of(was, machine);
    }
  }

  /** Those of the ids whose shell is on the machine. */
  function Members(r: Shells, ids: seq<string>, machine: string): set<string> {
    set id | id in ids && id in r.entries && r.entries[id].machine == machine
  }

  lemma MembersSnoc(r: Shells, ids: seq<string>, machine: string)
    requires ids != [] && Distinct(ids) && ids[|ids| - 1] in r.entries
    ensures var n := |ids| - 1; var before := Members(r, ids[..n], machine);
            && ids[n] !in before && Distinct(ids[..n])
            && Members(r, ids, machine) == if r.entries[ids[n]].machine == machine then before + {ids[n]} else before
  {
    var n := |ids| - 1;
    assert ids == ids[..n] + [ids[n]] && ids[n] !in ids[..n];
  }

  lemma {:induction false} CountIsCardinality(r: Shells, ids: seq<string>, machine: string)
    requires Distinct(ids) && forall id :: id in ids ==> id in r.entries
    ensures CountOf(r, ids, machine) == |Members(r, ids, machine)|
  {
    hide Members, Distinct;
    if ids == [] {
      NoMembers(r, machine);
    } else {
      var n := |ids| - 1;
      assert forall id :: id in ids[..n] ==> id in ids;
      MembersSnoc(r, ids, machine);
      CountIsCardinality(r, ids[..n], machine);
    }
  }

  lemma NoMembers(r: Shells, machine: string)
    ensures Members(r, [], machine) == {}
  {
  }

  /** The number closed is the number counted. */
  lemma ClosedIsCounted(r: Shells, machine: string)
    requires WellFormed(r)
    ensures |Of(r, machine)| == CountOf(r, r.order, machine)
  {
    hide CountOf;
    CountIsCardinality(r, r.order, machine);
    assert Of(r, machine) == Members(r, r.order, machine);
  }

  /** What is left is everyone else's shells, unchanged, and no default for the machine. */
  lemma CloseMachineRest(r: Shells, machine: string)
    requires WellFormed(r)
    ensures CloseMachine(r, machine).entries == map id | id in r.entries && r.entries[id].machine != machine :: r.entries[id]
    ensures CloseMachine(r, machine).order == Without(r.order, set id | id in r.entries && r.entries[id].machine == machine)
    ensures WellFormed(CloseMachine(r, machine))
    ensures DefaultsLive(r) ==> DefaultsLive(CloseMachine(r, machine))
    ensures DefaultsLive(r) ==> CloseMachine(r, machine).defaults == r.defaults - {machine}
  {
    RemoveKeeps(r, Of(r, machine), machine);
  }

  function TotalOf(r: Shells, machines: seq<string>): nat
    requires forall id :: id in r.order ==> id in r.entries
  {
    if machines == [] then 0 else CountOf(r, r.order, machines[0]) + TotalOf(r, machines[1..])
  }

  function OnAny(r: Shells, machines: seq<string>): set<string> {
    set id | id in r.entries && r.entries[id].machine in machines
  }

  lemma OnAnySplit(r: Shells, machines: seq<string>)
    requires machines != [] && Distinct(machines)
    ensures Distinct(machines[1..])
    ensures OnAny(r, machines) == Of(r, machines[0]) + OnAny(r, machines[1..])
    ensures Of(r, machines[0]) !! OnAny(r, machines[1..])
  {
    assert machines[0] !in machines[1..];
    assert forall m :: m in machines <==> m == machines[0] || m in machines[1..];
  }

  lemma {:induction false} TotalIsCardinality(r: Shells, machines: seq<string>)
    requires WellFormed(r) && Distinct(machines)
    ensures TotalOf(r, machines) == |OnAny(r, machines)|
  {
    hide OnAny, Of, Distinct, CountOf;
    if machines == [] {
      assert OnAny(r, machines) == {} by { OnNone(r); }
    } else {
      OnAnySplit(r, machines);
      ClosedIsCounted(r, machines[0]);
      TotalIsCardinality(r, machines[1..]);
    }
  }

  lemma OnNone(r: Shells)
    ensures OnAny(r, []) == {}
  {
  }

  /** When every shell's machine is in the list, the counts of the listed machines add up to all shells. */
  lemma CountsAddUp(r: Shells, machines: seq<string>)
    requires WellFormed(r) && Distinct(machines)
    requires forall id :: id in r.entries ==> r.entries[id].machine in machines
    ensures TotalOf(r, machines) == |r.order|
  {
    hide TotalOf;
    TotalIsCardinality(r, machines);
    OrderCardinality(r.order);
    assert OnAny(r, machines) == set id | id in r.order;
  }

  lemma {:induction false} OrderCardinality(ids: seq<string>)
    requires Distinct(ids)
    ensures |set id | id in ids| == |ids|
  {
    if ids != [] {
      assert Distinct(ids[1..]) && ids[0] !in ids[1..];
      OrderCardinality(ids[1..]);
      assert (set id | id in ids) == {ids[0]} + set id | id in ids[1..];
    }
  }
}
