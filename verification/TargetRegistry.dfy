/** The registry of machines and the default machine. */
module TargetRegistry {
  import opened Seqs
  import opened ShellRegistry

  datatype Kind = Docker | Ssh

  /** What a backend reports of a machine. */
  datatype Info = Info(status: string, purpose: string)

  datatype Machine = Machine(kind: Kind, info: Info, purpose: string)

  /** `order` is the insertion order of the dictionary. */
  datatype Machines = Machines(order: seq<string>, entries: map<string, Machine>, default: Option<string>)

  const NO_MACHINES := Machines([], map[], None)

  ghost predicate InOrder(r: Machines) {
    Distinct(r.order) && (forall m :: m in r.order <==> m in r.entries)
  }

  /** No default exactly when there is no machine; otherwise the default is registered. */
  ghost predicate DefaultRegistered(r: Machines) {
    match r.default
    case None => r.entries == map[]
    case Some(m) => m in r.entries
  }

  function Add(r: Machines, name: string, m: Machine): Machines {
    Machines(if name in r.entries then r.order else r.order + [name], r.entries[name := m],
             if r.default.None? then Some(name) else r.default)
  }

  function AdoptMachine(r: Machines, name: string, kind: Kind, info: Info): Machines {
    if name in r.entries then r else Add(r, name, Machine(kind, info, info.purpose))
  }

  function Drop(r: Machines, name: string): (Machines, bool) {
    if name !in r.entries then (r, false)
    else
      var order := Without(r.order, {name});
      (Machines(order, r.entries - {name},
                if r.default != Some(name) then r.default else if order == [] then None else Some(order[0])), true)
  }

  function Resolve(r: Machines, name: Option<string>): Option<string> {
    match name
    case None => r.default
    case Some(m) => if m in r.entries then name else None
  }

  lemma AddKeeps(r: Machines, name: string, m: Machine)
    requires InOrder(r)
    ensures InOrder(Add(r, name, m))
    ensures DefaultRegistered(r) ==> DefaultRegistered(Add(r, name, m))
  {
    var t := Add(r, name, m);
    forall i, j | 0 <= i < j < |t.order| ensures t.order[i] != t.order[j] {
      if j == |r.order| { assert t.order[i] in r.order; }
    }
  }

  lemma DropKeeps(r: Machines, name: string)
    requires InOrder(r) && DefaultRegistered(r)
    ensures InOrder(Drop(r, name).0) && DefaultRegistered(Drop(r, name).0)
    ensures Drop(r, name).0.entries == r.entries - {name}
  {
    WithoutMembers(r.order, {name});
    WithoutDistinct(r.order, {name});
    var order := Without(r.order, {name});
    if name in r.entries {
      if order != [] {
        assert order[0] in order;
      } else {
        assert forall m :: m in r.entries ==> m in r.order;
      }
    } else {
      assert r.entries - {name} == r.entries;
    }
  }

  /** Registering: the name gets this machine, new names come last, and a missing default is filled. */
  lemma AddEffect(r: Machines, name: string, m: Machine)
    ensures var t := Add(r, name, m);
            && t.entries == r.entries[name := m]
            && (name in r.entries ==> t.order == r.order) && (name !in r.entries ==> t.order == r.order + [name])
            && t.default == (if r.default.Some? then r.default else Some(name))
  {
  }

  /** Adopting: an unknown name is added with what the daemon says of it; a known one is left alone. */
  lemma AdoptEffect(r: Machines, name: string, kind: Kind, info: Info)
    ensures var t := AdoptMachine(r, name, kind, info);
            && (name in r.entries ==> t == r)
            && (name !in r.entries ==>
                  && t.entries == r.entries[name := Machine(kind, info, info.purpose)] && t.order == r.order + [name]
                  && t.default == (if r.default.Some? then r.default else Some(name)))
  {
  }

  /** Unregistering: exactly that machine goes and the others keep their order. A default that stays is kept; one that goes
      passes to the machine registered first of those left. */
  lemma DropEffect(r: Machines, name: string)
    requires InOrder(r) && DefaultRegistered(r)
    ensures var (t, found) := Drop(r, name);
            && found == (name in r.entries) && (!found ==> t == r)
            && t.entries == r.entries - {name}
            && (forall a, b :: r.order == a + [name] + b ==> t.order == a + b)
            && (r.default != Some(name) ==> t.default == r.default)
            && (r.default == Some(name) ==> t.default == if r.order == [name] then None
                                                         else Some(if r.order[0] == name then r.order[1] else r.order[0]))
  {
    hide InOrder, DefaultRegistered, Without;
    DropKeeps(r, name);
    OrderIsDistinct(r, name);
    if name in r.entries {
      FirstWithout(r.order, name);
      forall a, b | r.order == a + [name] + b ensures Drop(r, name).0.order == a + b { OrderWithout(a, name, b, r.order); }
    }
  }

  lemma OrderIsDistinct(r: Machines, name: string)
    requires InOrder(r)
    ensures Distinct(r.order) && (name in r.entries <==> name in r.order)
  {
  }

  /** What is left of an order, and what is then first. */
  lemma FirstWithout(order: seq<string>, name: string)
    requires Distinct(order) && name in order
    ensures var rest := Without(order, {name});
            && (rest == [] <==> order == [name])
            && (rest != [] ==> |order| > 1 && rest[0] == if order[0] == name then order[1] else order[0])
  {
    var i :| 0 <= i < |order| && order[i] == name;
    assert order == order[..i] + [name] + order[i + 1..];
    OrderWithout(order[..i], name, order[i + 1..], order);
  }

  /** Resolving: the default for no name, a registered name as it is, nothing for an unknown one. */
  lemma ResolveEffect(r: Machines, name: Option<string>, machine: string)
    ensures Resolve(r, name) == Some(machine) <==>
            (name.None? && r.default == Some(machine)) || (name == Some(machine) && machine in r.entries)
  {
  }

  class TargetRegistry {
    var order: seq<string>
    var entries: map<string, Machine>
    var default: Option<string>

    function Now(): Machines
      reads this
    {
      Machines(order, entries, default)
    }

    constructor ()
      ensures Now() == NO_MACHINES
    {
      order, entries, default := [], map[], None;
    }

    /** `info` is what the backend's create returned. */
    method Register(name: string, kind: Kind, info: Info, purpose: string)
      modifies this
      ensures Now() == Add(old(Now()), name, Machine(kind, info, purpose))
    {
      if name !in entries { order := order + [name]; }
      entries := entries[name := Machine(kind, info, purpose)];
      if default.None? { default := Some(name); }
    }

    method Adopt(name: string, kind: Kind, info: Info)
      modifies this
      ensures Now() == AdoptMachine(old(Now()), name, kind, info)
    {
      if name in entries { return; }
      order := order + [name];
      entries := entries[name := Machine(kind, info, info.purpose)];
      if default.None? { default := Some(name); }
    }

    method Unregister(name: string) returns (found: bool)
      modifies this
      ensures (Now(), found) == Drop(old(Now()), name)
    {
      if name !in entries { return false; }
      order := Without(order, {name});
      entries := entries - {name};
      if default == Some(name) { default := if order == [] then None else Some(order[0]); }
      return true;
    }

    method SetDefault(name: string) returns (ok: bool)
      modifies this
      ensures ok == (name in old(entries))
      ensures Now() == if ok then old(Now()).(default := Some(name)) else old(Now())
    {
      if name !in entries { return false; }
      default := Some(name);
      return true;
    }

    method ResolveMachine(name: Option<string>) returns (machine: Option<string>)
      ensures machine == Resolve(Now(), name)
    {
      if name.None? { return default; }
      if name.value !in entries { return None; }
      return name;
    }
  }
}
