/** The env actions, as steps over the machine registry, the shell registry and the Docker daemon. */
module SandboxEnv {
  import opened Seqs
  import opened S = ShellRegistry
  import opened T = TargetRegistry

  /** A container with the labels the backend reads. */
  datatype Container = Container(managed: bool, machine: string, purpose: string)

  type Daemon = map<string, Container>

  datatype Env = Env(machines: Machines, shells: Shells, daemon: Daemon)

  // ---------------------------------------------------------------- the Docker backend

  /** How a create call goes: the share directory cannot be set up; an exception escapes; the image is missing;
      the API refuses; or the daemon accepts the name. A failure may leave a container behind. When the name is
      taken, `starts` and `stays` say how reattaching to the existing container goes. */
  datatype CreateOutcome =
    | SetupFails
    | Raises(left: bool)
    | ImageMissing
    | ApiFails(leaves: bool)
    | Accepted(starts: bool, stays: bool)

  function Leave(daemon: Daemon, name: string, purpose: string, left: bool): Daemon {
    if left && name !in daemon then daemon[name := Container(true, name, purpose)] else daemon
  }

  /** No info means an exception. */
  function Create(daemon: Daemon, name: string, purpose: string, o: CreateOutcome): (Daemon, Option<Info>) {
    match o
    case SetupFails => (daemon, Some(Info("error", purpose)))
    case Raises(left) => (Leave(daemon, name, purpose, left), None)
    case ImageMissing => (daemon, Some(Info("error", purpose)))
    case ApiFails(left) => (Leave(daemon, name, purpose, left), Some(Info("error", purpose)))
    case Accepted(starts, stays) =>
      if name in daemon then
        (daemon, Some(Info(if starts && stays then "running" else "error", daemon[name].purpose)))
      else (Leave(daemon, name, purpose, true), Some(Info("running", purpose)))
  }

  /** How a remove call goes: the container goes; the API refuses, or knows no such container; or another exception escapes,
      such as a lost reply, with the container gone or not. */
  datatype RemoveOutcome = Removed | Refused | RemoveRaises(gone: bool)

  function Remove(daemon: Daemon, name: string, o: RemoveOutcome): Daemon {
    if o.Removed? || (o.RemoveRaises? && o.gone) then daemon - {name} else daemon
  }

  /** One row of the managed-container listing: the container and its state. */
  datatype Listing = Listing(container: string, status: string)

  function Adopt(machines: Machines, daemon: Daemon, row: Listing): Machines
    requires row.container in daemon
  {
    var c := daemon[row.container];
    if c.machine == "" then machines else AdoptMachine(machines, c.machine, Docker, Info(row.status, c.purpose))
  }

  function AdoptAll(machines: Machines, daemon: Daemon, rows: seq<Listing>): Machines
    requires forall row :: row in rows ==> row.container in daemon
  {
    if rows == [] then machines
    else
      var n := |rows| - 1;
      assert rows[n] in rows && forall row :: row in rows[..n] ==> row in rows;
      Adopt(AdoptAll(machines, daemon, rows[..n]), daemon, rows[n])
  }

  // ---------------------------------------------------------------- the actions on values

  function ShellNew(env: Env, machine: Option<string>, opens: bool, healthy: bool, purpose: string, id: string): Env {
    var m := Resolve(env.machines, machine);
    if m.None? || !opens then env
    else env.(shells := OpenShell(env.shells, m.value, purpose, healthy, id).0)
  }

  function ShellRemove(env: Env, id: string): Env { env.(shells := CloseShell(env.shells, id).0) }

  function DefaultSet(env: Env, machine: Option<Option<string>>, shell: Option<string>): Env {
    if machine.Some? == shell.Some? then env
    else if machine.Some? then
      var m := Resolve(env.machines, machine.value);
      if m.None? then env else env.(machines := env.machines.(default := m))
    else env.(shells := ChooseDefault(env.shells, shell.value).0)
  }

  function DockerRun(env: Env, name: string, purpose: string, o: CreateOutcome): Env {
    var (daemon, info) := Create(env.daemon, name, purpose, o);
    env.(daemon := daemon,
         machines := if info.None? then env.machines
                     else Add(env.machines, name, Machine(Docker, info.value, purpose)))
  }

  /** The machine a Docker action works on: registered, and of the Docker kind. */
  function DockerMachine(env: Env, machine: Option<string>): Option<string> {
    var m := Resolve(env.machines, machine);
    if m.Some? && m.value in env.machines.entries && env.machines.entries[m.value].kind.Docker? then m else None
  }

  function DockerStop(env: Env, machine: Option<string>): Env {
    var m := DockerMachine(env, machine);
    if m.None? then env else env.(shells := CloseMachine(env.shells, m.value))
  }

  /** Closing the shells, removing the container, unregistering, in this order. */
  function Retire(env: Env, machine: string, container: bool, o: RemoveOutcome): Env {
    Env(if o.RemoveRaises? then env.machines else Drop(env.machines, machine).0,
        CloseMachine(env.shells, machine),
        if container then Remove(env.daemon, machine, o) else env.daemon)
  }

  function DockerRemove(env: Env, machine: Option<string>, o: RemoveOutcome): Env {
    var m := DockerMachine(env, machine);
    if m.None? then env else Retire(env, m.value, true, o)
  }

  function DockerPs(env: Env, rows: seq<Listing>): Env
    requires forall row :: row in rows ==> row.container in env.daemon
  {
    env.(machines := AdoptAll(env.machines, env.daemon, rows))
  }

  /** `target` is the configured purpose; `status` what the backend reports, none when it raises. */
  function Connect(env: Env, name: string, target: Option<string>, status: Option<string>, made: bool, id: string): Env {
    if name == "" || target.None? || status.None? then env
    else
      var t := env.(machines := Add(env.machines, name, Machine(Ssh, Info(status.value, target.value), target.value)));
      if status.value == "running" then t.(shells := DefaultShell(t.shells, name, made, id).0) else t
  }

  function Close(env: Env, name: string, o: RemoveOutcome): Env {
    if name == "" || name !in env.machines.entries then env
    else Retire(env, name, env.machines.entries[name].kind.Docker?, o)
  }

  /** The part of shell_exec that finds or creates the machine's default shell. */
  function ExecDefault(env: Env, machine: Option<string>, made: bool, id: string): Env {
    var m := Resolve(env.machines, machine);
    if m.None? then env else env.(shells := DefaultShell(env.shells, m.value, made, id).0)
  }

  /** The configured backend of the default machine, and how its create call goes; for SSH whether the target is configured,
      and the status reported, none when create raises. */
  datatype Via = ViaDocker(o: CreateOutcome) | ViaSsh(configured: bool, status: Option<string>) | ViaUnknown

  function Register(env: Env, name: string, purpose: string, via: Via): Env {
    match via
    case ViaDocker(o) => DockerRun(env, name, purpose, o)
    case ViaSsh(configured, status) =>
      if !configured || status.None? then env
      else env.(machines := Add(env.machines, name, Machine(Ssh, Info(status.value, purpose), purpose)))
    case ViaUnknown => env
  }

  /** Startup provisioning; false when the server refuses to start. */
  function Provision(env: Env, name: string, purpose: string, via: Via): (Env, bool) {
    if name in env.machines.entries then (env.(machines := env.machines.(default := Some(name))), true)
    else
      var t := Register(env, name, purpose, via);
      if name in t.machines.entries && t.machines.entries[name].info.status == "running"
      then (t.(machines := t.machines.(default := Some(name))), true)
      else (t, false)
  }

  // ---------------------------------------------------------------- the invariant

  ghost predicate ShellsRegistered(env: Env) {
    forall id :: id in env.shells.entries ==> env.shells.entries[id].machine in env.machines.entries
  }

  /** A registered Docker machine whose recorded status is not error is a container with the recorded purpose. */
  ghost predicate Agrees(env: Env, m: string) {
    m in env.machines.entries && env.machines.entries[m].kind.Docker? && env.machines.entries[m].info.status != "error" ==>
      m in env.daemon && env.daemon[m].purpose == env.machines.entries[m].info.purpose
  }

  /** Registry and daemon agree on all machines but the lost ones. */
  ghost predicate Cached(env: Env, lost: set<string>) {
    forall m :: m in env.machines.entries && m !in lost ==> Agrees(env, m)
  }

  /** Managed containers were all named by this server. */
  ghost predicate Labelled(daemon: Daemon) {
    forall c :: c in daemon && daemon[c].managed && daemon[c].machine != "" ==> daemon[c].machine == c
  }

  ghost predicate Inv(env: Env) {
    && WellFormed(env.shells) && DefaultsLive(env.shells)
    && InOrder(env.machines) && DefaultRegistered(env.machines)
    && ShellsRegistered(env) && Labelled(env.daemon)
  }

  /** A listing holds each managed container once; a daemon error lists nothing. */
  ghost predicate Lists(daemon: Daemon, rows: seq<Listing>) {
    && (forall row :: row in rows ==> row.container in daemon && daemon[row.container].managed)
    && (rows == [] || forall c :: c in daemon && daemon[c].managed ==> exists row :: row in rows && row.container == c)
  }

  datatype Action =
    | DoShellNew(machine: Option<string>, opens: bool, healthy: bool, purpose: string, id: string)
    | DoShellRemove(shell: string)
    | DoDefaultSet(newMachine: Option<Option<string>>, newShell: Option<string>)
    | DoDockerRun(name: string, use: string, run: CreateOutcome)
    | DoDockerStop(machine: Option<string>)
    | DoDockerRemove(machine: Option<string>, removal: RemoveOutcome)
    | DoDockerPs(rows: seq<Listing>)
    | DoConnect(name: string, target: Option<string>, status: Option<string>, made: bool, id: string)
    | DoClose(name: string, removal: RemoveOutcome)
    | DoExecDefault(machine: Option<string>, made: bool, id: string)
    | DoProvision(name: string, use: string, via: Via)

  ghost predicate Allowed(env: Env, a: Action) {
    match a
    case DoShellNew(_, _, _, _, id) => FreshId(env.shells, id)
    case DoConnect(_, _, _, _, id) => FreshId(env.shells, id)
    case DoExecDefault(_, _, id) => FreshId(env.shells, id)
    case DoDockerPs(rows) => Lists(env.daemon, rows)
    case _ => true
  }

  ghost function Act(env: Env, a: Action): Env
    requires Allowed(env, a)
  {
    match a
    case DoShellNew(machine, opens, healthy, purpose, id) => ShellNew(env, machine, opens, healthy, purpose, id)
    case DoShellRemove(id) => ShellRemove(env, id)
    case DoDefaultSet(machine, shell) => DefaultSet(env, machine, shell)
    case DoDockerRun(name, purpose, o) => DockerRun(env, name, purpose, o)
    case DoDockerStop(machine) => DockerStop(env, machine)
    case DoDockerRemove(machine, o) => DockerRemove(env, machine, o)
    case DoDockerPs(rows) => DockerPs(env, rows)
    case DoConnect(name, target, status, made, id) => Connect(env, name, target, status, made, id)
    case DoClose(name, o) => Close(env, name, o)
    case DoExecDefault(machine, made, id) => ExecDefault(env, machine, made, id)
    case DoProvision(name, purpose, via) => Provision(env, name, purpose, via).0
  }

  /** The machine an action removes, and how that goes. */
  function Removal(env: Env, a: Action): Option<(string, RemoveOutcome)> {
    match a
    case DoDockerRemove(machine, o) =>
      var m := DockerMachine(env, machine);
      if m.None? then None else Some((m.value, o))
    case DoClose(name, o) => if name == "" || name !in env.machines.entries then None else Some((name, o))
    case _ => None
  }

  /** The Docker machine whose removal raised after its container had gone. */
  function Vanished(env: Env, a: Action): set<string> {
    var r := Removal(env, a);
    if r.Some? && r.value.0 in env.machines.entries && env.machines.entries[r.value.0].kind.Docker?
       && r.value.1 == RemoveRaises(true) then {r.value.0} else {}
  }

  /** The machine an action registers or unregisters. */
  function Settled(env: Env, a: Action): set<string> {
    match a
    case DoDockerRun(name, purpose, o) => if Create(env.daemon, name, purpose, o).1.Some? then {name} else {}
    case DoConnect(name, target, status, _, _) => if name == "" || target.None? || status.None? then {} else {name}
    case DoProvision(name, purpose, via) =>
      if name !in env.machines.entries && name in Register(env, name, purpose, via).machines.entries then {name} else {}
    case _ =>
      var r := Removal(env, a);
      if r.Some? && !r.value.1.RemoveRaises? then {r.value.0} else {}
  }

  /** The machines whose container vanished and that were not registered or unregistered since. */
  function Lost(env: Env, lost: set<string>, a: Action): set<string> { lost - Settled(env, a) + Vanished(env, a) }

  // ---------------------------------------------------------------- every action keeps it

  /** Shells change only on registered machines. */
  lemma ShellsInv(env: Env, shells: Shells)
    requires Inv(env) && WellFormed(shells) && DefaultsLive(shells)
    requires forall id :: id in shells.entries ==> shells.entries[id].machine in env.machines.entries
    ensures Inv(env.(shells := shells))
  {
  }

  lemma DefaultShellInv(env: Env, machine: string, made: bool, id: string)
    requires Inv(env) && machine in env.machines.entries && FreshId(env.shells, id)
    ensures Inv(env.(shells := DefaultShell(env.shells, machine, made, id).0))
  {
    hide Inv, WellFormed;
    InvParts(env);
    PublishKeeps(env.shells, id, S.Entry(machine, "default"));
    DefaultKeeps(Publish(env.shells, id, S.Entry(machine, "default")), id);
    ShellsInv(env, DefaultShell(env.shells, machine, made, id).0);
  }

  lemma InvParts(env: Env)
    requires Inv(env)
    ensures WellFormed(env.shells) && DefaultsLive(env.shells) && ShellsRegistered(env)
    ensures InOrder(env.machines) && DefaultRegistered(env.machines) && Labelled(env.daemon)
  {
  }

  lemma DefaultKeeps(r: Shells, id: string)
    requires WellFormed(r) && DefaultsLive(r) && id in r.entries
    ensures WellFormed(r.(defaults := r.defaults[r.entries[id].machine := id]))
    ensures DefaultsLive(r.(defaults := r.defaults[r.entries[id].machine := id]))
  {
  }

  /** Resolving always gives a registered machine. */
  lemma Resolved(env: Env, machine: Option<string>)
    requires Inv(env)
    ensures Resolve(env.machines, machine).Some? ==> Resolve(env.machines, machine).value in env.machines.entries
  {
  }

  lemma ShellNewInv(env: Env, machine: Option<string>, opens: bool, healthy: bool, purpose: string, id: string)
    requires Inv(env) && FreshId(env.shells, id)
    ensures Inv(ShellNew(env, machine, opens, healthy, purpose, id))
  {
    hide Inv, WellFormed, DefaultsLive, Resolve;
    InvParts(env);
    Resolved(env, machine);
    var m := Resolve(env.machines, machine);
    if m.Some? && opens && healthy {
      PublishKeeps(env.shells, id, S.Entry(m.value, purpose));
      ShellsInv(env, Publish(env.shells, id, S.Entry(m.value, purpose)));
    }
  }

  lemma ShellRemoveInv(env: Env, id: string)
    requires Inv(env)
    ensures Inv(ShellRemove(env, id))
  {
    hide Inv, WellFormed, DefaultsLive;
    InvParts(env);
    if id in env.shells.entries {
      RemoveKeeps(env.shells, {id}, env.shells.entries[id].machine);
      ShellsInv(env, CloseShell(env.shells, id).0);
    }
  }

  lemma DefaultSetInv(env: Env, machine: Option<Option<string>>, shell: Option<string>)
    requires Inv(env)
    ensures Inv(DefaultSet(env, machine, shell))
  {
    if machine.Some? { Resolved(env, machine.value); }
    else if shell.Some? && shell.value in env.shells.entries {
      DefaultKeeps(env.shells, shell.value);
      ShellsInv(env, ChooseDefault(env.shells, shell.value).0);
    }
  }

  lemma CreateKeeps(daemon: Daemon, name: string, purpose: string, o: CreateOutcome)
    requires Labelled(daemon)
    ensures var (after, info) := Create(daemon, name, purpose, o);
            && Labelled(after)
            && (forall c :: c in daemon ==> c in after && after[c] == daemon[c])
            && (info.Some? && info.value.status != "error" ==> name in after && after[name].purpose == info.value.purpose)
  {
  }

  lemma DockerRunInv(env: Env, name: string, purpose: string, o: CreateOutcome)
    requires Inv(env)
    ensures Inv(DockerRun(env, name, purpose, o))
  {
    hide Create, InOrder, DefaultRegistered, Add, WellFormed, DefaultsLive, Labelled;
    CreateKeeps(env.daemon, name, purpose, o);
    var info := Create(env.daemon, name, purpose, o).1;
    if info.Some? {
      AddKeeps(env.machines, name, Machine(Docker, info.value, purpose));
      AddEntries(env.machines, name, Machine(Docker, info.value, purpose));
    }
  }

  lemma AddEntries(r: Machines, name: string, m: Machine)
    ensures Add(r, name, m).entries == r.entries[name := m]
  {
  }

  lemma CloseMachineInv(env: Env, machine: string)
    requires Inv(env)
    ensures Inv(env.(shells := CloseMachine(env.shells, machine)))
    ensures forall id :: id in CloseMachine(env.shells, machine).entries ==>
              CloseMachine(env.shells, machine).entries[id].machine != machine
  {
    hide Inv, WellFormed, DefaultsLive;
    InvParts(env);
    CloseMachineRest(env.shells, machine);
    ShellsInv(env, CloseMachine(env.shells, machine));
  }

  lemma RetireInv(env: Env, machine: string, o: RemoveOutcome)
    requires Inv(env) && machine in env.machines.entries
    ensures Inv(Retire(env, machine, env.machines.entries[machine].kind.Docker?, o))
    ensures !o.RemoveRaises? ==>
              machine !in Retire(env, machine, env.machines.entries[machine].kind.Docker?, o).machines.entries
  {
    hide CloseMachine, Drop, WellFormed, DefaultsLive, InOrder, DefaultRegistered;
    CloseMachineInv(env, machine);
    DropKeeps(env.machines, machine);
  }

  lemma DockerRemoveInv(env: Env, machine: Option<string>, o: RemoveOutcome)
    requires Inv(env)
    ensures Inv(DockerRemove(env, machine, o))
  {
    hide Inv, Retire;
    var m := DockerMachine(env, machine);
    if m.Some? { RetireInv(env, m.value, o); }
  }

  /** Adopting a listing: known machines are unchanged, and exactly the listed names are added. */
  lemma {:induction false} AdoptAllKeeps(env: Env, rows: seq<Listing>)
    requires Inv(env) && forall row :: row in rows ==> row.container in env.daemon && env.daemon[row.container].managed
    ensures var after := AdoptAll(env.machines, env.daemon, rows);
            && Inv(env.(machines := after))
            && (forall m :: m in env.machines.entries ==> m in after.entries && after.entries[m] == env.machines.entries[m])
            && (forall m :: m in after.entries <==>
                  m in env.machines.entries || exists row :: row in rows && row.container == m && env.daemon[m].machine == m != "")
  {
    if rows != [] {
      var n := |rows| - 1;
      assert rows == rows[..n] + [rows[n]];
      assert forall row :: row in rows <==> row in rows[..n] || row == rows[n];
      AdoptAllKeeps(env, rows[..n]);
      AdoptOne(env.(machines := AdoptAll(env.machines, env.daemon, rows[..n])), rows[n]);
    }
  }

  lemma AdoptOne(env: Env, row: Listing)
    requires Inv(env) && row.container in env.daemon && env.daemon[row.container].managed
    ensures var after := Adopt(env.machines, env.daemon, row);
            && Inv(env.(machines := after))
            && (forall m :: m in env.machines.entries ==> m in after.entries && after.entries[m] == env.machines.entries[m])
            && (forall m :: m in after.entries <==>
                  m in env.machines.entries || (row.container == m && env.daemon[m].machine == m != ""))
  {
    var c := env.daemon[row.container];
    AddKeeps(env.machines, c.machine, Machine(Docker, Info(row.status, c.purpose), c.purpose));
  }

  lemma ConnectInv(env: Env, name: string, target: Option<string>, status: Option<string>, made: bool, id: string)
    requires Inv(env) && FreshId(env.shells, id)
    ensures Inv(Connect(env, name, target, status, made, id))
  {
    hide Add, InOrder, DefaultRegistered, WellFormed, DefaultsLive, DefaultShell;
    if name != "" && target.Some? && status.Some? {
      var m := Machine(Ssh, Info(status.value, target.value), target.value);
      AddKeeps(env.machines, name, m);
      AddEntries(env.machines, name, m);
      DefaultShellInv(env.(machines := Add(env.machines, name, m)), name, made, id);
    }
  }

  lemma RegisterInv(env: Env, name: string, purpose: string, via: Via)
    requires Inv(env)
    ensures Inv(Register(env, name, purpose, via))
  {
    hide DockerRun, Add, InOrder, DefaultRegistered, WellFormed, DefaultsLive;
    match via
    case ViaDocker(o) => DockerRunInv(env, name, purpose, o);
    case ViaSsh(configured, status) =>
      if configured && status.Some? {
        AddKeeps(env.machines, name, Machine(Ssh, Info(status.value, purpose), purpose));
        AddEntries(env.machines, name, Machine(Ssh, Info(status.value, purpose), purpose));
      }
    case ViaUnknown =>
  }

  lemma ProvisionInv(env: Env, name: string, purpose: string, via: Via)
    requires Inv(env)
    ensures Inv(Provision(env, name, purpose, via).0)
    ensures Provision(env, name, purpose, via).1 ==> Provision(env, name, purpose, via).0.machines.default == Some(name)
  {
    hide Register;
    RegisterInv(env, name, purpose, via);
  }

  lemma ActInv(env: Env, a: Action)
    requires Inv(env) && Allowed(env, a)
    ensures Inv(Act(env, a))
  {
    hide Inv, FreshId, Lists;
    match a
    case DoShellNew(machine, opens, healthy, purpose, id) => ShellNewInv(env, machine, opens, healthy, purpose, id);
    case DoShellRemove(id) => ShellRemoveInv(env, id);
    case DoDefaultSet(machine, shell) => DefaultSetInv(env, machine, shell);
    case DoDockerRun(name, purpose, o) => DockerRunInv(env, name, purpose, o);
    case DoDockerStop(machine) => if DockerMachine(env, machine).Some? { CloseMachineInv(env, DockerMachine(env, machine).value); }
    case DoDockerRemove(machine, o) => DockerRemoveInv(env, machine, o);
    case DoDockerPs(rows) => DockerPsInv(env, rows);
    case DoConnect(name, target, status, made, id) => ConnectInv(env, name, target, status, made, id);
    case DoClose(name, o) => if name != "" && name in env.machines.entries { RetireInv(env, name, o); }
    case DoExecDefault(machine, made, id) =>
      Resolved(env, machine);
      if Resolve(env.machines, machine).Some? { DefaultShellInv(env, Resolve(env.machines, machine).value, made, id); }
    case DoProvision(name, purpose, via) => ProvisionInv(env, name, purpose, via);
  }

  lemma DockerPsInv(env: Env, rows: seq<Listing>)
    requires Inv(env) && Lists(env.daemon, rows)
    ensures Inv(DockerPs(env, rows))
  {
    hide Inv;
    AdoptAllKeeps(env, rows);
  }

  // ---------------------------------------------------------------- registry and daemon

  /** Nothing changes in the registry's entries or the daemon. */
  lemma SameCached(env: Env, after: Env, lost: set<string>)
    requires Cached(env, lost) && after.machines.entries == env.machines.entries && after.daemon == env.daemon
    ensures Cached(after, lost)
  {
    forall m | m in after.machines.entries && m !in lost ensures Agrees(after, m) { assert Agrees(env, m); }
  }

  lemma DockerRunCached(env: Env, lost: set<string>, name: string, purpose: string, o: CreateOutcome)
    requires Inv(env) && Cached(env, lost)
    ensures Cached(DockerRun(env, name, purpose, o), lost - (if Create(env.daemon, name, purpose, o).1.Some? then {name} else {}))
  {
    hide Create, Add, Inv;
    InvParts(env);
    CreateKeeps(env.daemon, name, purpose, o);
    var (daemon, info) := Create(env.daemon, name, purpose, o);
    if info.Some? { AddEntries(env.machines, name, Machine(Docker, info.value, purpose)); }
    var after := DockerRun(env, name, purpose, o);
    forall m | m in after.machines.entries && (m !in lost || (info.Some? && m == name)) ensures Agrees(after, m) {
      if m in env.machines.entries && m !in lost { assert Agrees(env, m); }
    }
  }

  lemma SshCached(env: Env, lost: set<string>, name: string, m: Machine)
    requires Cached(env, lost) && m.kind.Ssh?
    ensures Cached(env.(machines := Add(env.machines, name, m)), lost - {name})
  {
    hide Add;
    AddEntries(env.machines, name, m);
    var after := env.(machines := Add(env.machines, name, m));
    forall k | k in after.machines.entries && k !in lost - {name} ensures Agrees(after, k) {
      if k != name { assert Agrees(env, k); }
    }
  }

  lemma RetireCached(env: Env, lost: set<string>, machine: string, o: RemoveOutcome)
    requires Inv(env) && Cached(env, lost) && machine in env.machines.entries
    ensures var docker := env.machines.entries[machine].kind.Docker?;
            Cached(Retire(env, machine, docker, o),
                   lost - (if o.RemoveRaises? then {} else {machine}) + (if docker && o == RemoveRaises(true) then {machine} else {}))
  {
    hide CloseMachine, Inv;
    var after := Retire(env, machine, env.machines.entries[machine].kind.Docker?, o);
    forall m | m in after.machines.entries && m !in lost
               && (m == machine ==> o.RemoveRaises? && !(env.machines.entries[machine].kind.Docker? && o.gone))
      ensures Agrees(after, m)
    {
      assert Agrees(env, m);
    }
  }

  lemma {:induction false} AdoptCached(env: Env, lost: set<string>, rows: seq<Listing>)
    requires Inv(env) && Cached(env, lost)
    requires forall row :: row in rows ==> row.container in env.daemon && env.daemon[row.container].managed
    ensures Cached(DockerPs(env, rows), lost)
  {
    hide Inv, AdoptMachine;
    if rows != [] {
      var n := |rows| - 1;
      assert rows == rows[..n] + [rows[n]];
      assert forall row :: row in rows <==> row in rows[..n] || row == rows[n];
      AdoptCached(env, lost, rows[..n]);
      InvParts(env);
      AdoptOneCached(DockerPs(env, rows[..n]), lost, rows[n]);
    }
  }

  lemma AdoptOneCached(env: Env, lost: set<string>, row: Listing)
    requires Labelled(env.daemon) && Cached(env, lost) && row.container in env.daemon && env.daemon[row.container].managed
    ensures Cached(env.(machines := Adopt(env.machines, env.daemon, row)), lost)
  {
    var after, c := env.(machines := Adopt(env.machines, env.daemon, row)), env.daemon[row.container];
    forall m | m in after.machines.entries && m !in lost ensures Agrees(after, m) {
      if m in env.machines.entries { assert Agrees(env, m); }
    }
  }

  lemma ProvisionCached(env: Env, lost: set<string>, name: string, purpose: string, via: Via)
    requires Inv(env) && Cached(env, lost)
    ensures Cached(Provision(env, name, purpose, via).0, Lost(env, lost, DoProvision(name, purpose, via)))
  {
    hide Inv, Cached, DockerRun, Create;
    var t := Register(env, name, purpose, via);
    if name in env.machines.entries {
      SameCached(env, Provision(env, name, purpose, via).0, lost);
      assert Lost(env, lost, DoProvision(name, purpose, via)) == lost;
    } else {
      RegisterCached(env, lost, name, purpose, via);
      assert Lost(env, lost, DoProvision(name, purpose, via)) == lost - (if name in t.machines.entries then {name} else {});
      SameCached(t, Provision(env, name, purpose, via).0, Lost(env, lost, DoProvision(name, purpose, via)));
    }
  }

  lemma RegisterCached(env: Env, lost: set<string>, name: string, purpose: string, via: Via)
    requires Inv(env) && Cached(env, lost) && name !in env.machines.entries
    ensures var t := Register(env, name, purpose, via);
            Cached(t, lost - (if name in t.machines.entries then {name} else {}))
  {
    hide Inv, Cached, Create;
    match via
    case ViaDocker(o) => DockerRunCached(env, lost, name, purpose, o);
    case ViaSsh(configured, status) =>
      if configured && status.Some? { SshCached(env, lost, name, Machine(Ssh, Info(status.value, purpose), purpose)); }
      assert lost - {} == lost;
    case ViaUnknown => assert lost - {} == lost;
  }

  lemma RetireLost(env: Env, lost: set<string>, a: Action, machine: string, o: RemoveOutcome)
    requires Inv(env) && Cached(env, lost) && Removal(env, a) == Some((machine, o)) && machine in env.machines.entries
    ensures Cached(Retire(env, machine, env.machines.entries[machine].kind.Docker?, o), Lost(env, lost, a))
  {
    hide Inv, Cached, Retire;
    RetireCached(env, lost, machine, o);
    var docker := env.machines.entries[machine].kind.Docker?;
    assert Lost(env, lost, a) ==
           lost - (if o.RemoveRaises? then {} else {machine}) + (if docker && o == RemoveRaises(true) then {machine} else {});
  }

  lemma ListsRows(daemon: Daemon, rows: seq<Listing>)
    requires Lists(daemon, rows)
    ensures forall row :: row in rows ==> row.container in daemon && daemon[row.container].managed
  {
  }

  lemma RemovalCached(env: Env, lost: set<string>, a: Action)
    requires Inv(env) && Cached(env, lost) && (a.DoDockerRemove? || a.DoClose?)
    ensures Cached(Act(env, a), Lost(env, lost, a))
  {
    hide Inv, Cached, Retire;
    var r := Removal(env, a);
    if r.Some? { RetireLost(env, lost, a, r.value.0, r.value.1); } else { assert Lost(env, lost, a) == lost; }
  }

  lemma ConnectCached(env: Env, lost: set<string>, name: string, target: Option<string>, status: Option<string>, made: bool, id: string)
    requires Cached(env, lost)
    ensures Cached(Connect(env, name, target, status, made, id), Lost(env, lost, DoConnect(name, target, status, made, id)))
  {
    hide Cached, DefaultShell, Add;
    var after := Lost(env, lost, DoConnect(name, target, status, made, id));
    if name == "" || target.None? || status.None? {
      assert after == lost;
    } else {
      var m := Machine(Ssh, Info(status.value, target.value), target.value);
      SshCached(env, lost, name, m);
      assert after == lost - {name};
      SameCached(env.(machines := Add(env.machines, name, m)), Connect(env, name, target, status, made, id), after);
    }
  }

  /** Every action keeps the agreement of registry and daemon, but for the lost machines. */
  lemma ActCached(env: Env, lost: set<string>, a: Action)
    requires Inv(env) && Cached(env, lost) && Allowed(env, a)
    ensures Cached(Act(env, a), Lost(env, lost, a))
  {
    hide Inv, FreshId, Lists, Cached, Retire, Create, Connect, Provision, Register;
    match a
    case DoDockerRun(name, purpose, o) =>
      DockerRunCached(env, lost, name, purpose, o);
      assert Lost(env, lost, a) == lost - (if Create(env.daemon, name, purpose, o).1.Some? then {name} else {});
    case DoDockerRemove(_, _) => RemovalCached(env, lost, a);
    case DoClose(_, _) => RemovalCached(env, lost, a);
    case DoDockerPs(rows) =>
      ListsRows(env.daemon, rows);
      AdoptCached(env, lost, rows);
      assert Lost(env, lost, a) == lost;
    case DoConnect(name, target, status, made, id) => ConnectCached(env, lost, name, target, status, made, id);
    case DoProvision(name, purpose, via) => ProvisionCached(env, lost, name, purpose, via);
    case _ =>
      assert Lost(env, lost, a) == lost;
      SameCached(env, Act(env, a), lost);
  }

  // ---------------------------------------------------------------- whole runs

  ghost predicate AllAllowed(env: Env, actions: seq<Action>)
    decreases |actions|
  {
    actions == [] || (Allowed(env, actions[0]) && AllAllowed(Act(env, actions[0]), actions[1..]))
  }

  ghost function Run(env: Env, actions: seq<Action>): Env
    requires AllAllowed(env, actions)
    decreases |actions|
  {
    if actions == [] then env else Run(Act(env, actions[0]), actions[1..])
  }

  lemma {:induction false} RunInv(env: Env, actions: seq<Action>)
    requires Inv(env) && AllAllowed(env, actions)
    ensures Inv(Run(env, actions))
    decreases |actions|
  {
    hide Inv, Act, Allowed;
    if actions != [] {
      ActInv(env, actions[0]);
      RunInv(Act(env, actions[0]), actions[1..]);
    }
  }

  /** The lost machines after a run. */
  ghost function LostIn(env: Env, lost: set<string>, actions: seq<Action>): set<string>
    requires AllAllowed(env, actions)
    decreases |actions|
  {
    if actions == [] then lost else LostIn(Act(env, actions[0]), Lost(env, lost, actions[0]), actions[1..])
  }

  lemma {:induction false} RunCached(env: Env, lost: set<string>, actions: seq<Action>)
    requires Inv(env) && Cached(env, lost) && AllAllowed(env, actions)
    ensures Cached(Run(env, actions), LostIn(env, lost, actions))
    decreases |actions|
  {
    hide Inv, Act, Allowed, Cached, Lost;
    if actions != [] {
      ActInv(env, actions[0]);
      ActCached(env, lost, actions[0]);
      RunCached(Act(env, actions[0]), Lost(env, lost, actions[0]), actions[1..]);
    }
  }

  /** In every run from a server start over any daemon whose managed containers carry their own names:
      every shell's machine is registered, every default shell is a live shell of its machine, the default machine
      is registered and missing only when there is none, and the registry agrees with the daemon on every machine but those
      whose removal raised after the container had gone, until they are next registered or unregistered. */
  lemma EveryRun(daemon: Daemon, actions: seq<Action>)
    requires Labelled(daemon) && AllAllowed(Env(NO_MACHINES, NO_SHELLS, daemon), actions)
    ensures var e := Run(Env(NO_MACHINES, NO_SHELLS, daemon), actions);
            && (forall id :: id in e.shells.entries ==> e.shells.entries[id].machine in e.machines.entries)
            && (forall m :: m in e.shells.defaults ==>
                  m in e.machines.entries && e.shells.defaults[m] in e.shells.entries
                  && e.shells.entries[e.shells.defaults[m]].machine == m)
            && (e.machines.default.None? <==> e.machines.entries == map[])
            && (e.machines.default.Some? ==> e.machines.default.value in e.machines.entries)
            && Cached(e, LostIn(Env(NO_MACHINES, NO_SHELLS, daemon), {}, actions))
  {
    hide Cached, AllAllowed, Act, LostIn;
    var start := Env(NO_MACHINES, NO_SHELLS, daemon);
    assert Cached(start, {}) by { NothingRegistered(start); }
    RunInv(start, actions);
    RunCached(start, {}, actions);
  }

  lemma NothingRegistered(env: Env)
    requires env.machines == NO_MACHINES
    ensures Cached(env, {})
  {
  }

  /** The action is a removal that raises after the container has gone. */
  predicate RaisesLate(a: Action) {
    (a.DoDockerRemove? || a.DoClose?) && a.removal == RemoveRaises(true)
  }

  /** So without such a removal, the registry agrees with the daemon on every machine. */
  lemma {:induction false} NothingLost(env: Env, actions: seq<Action>)
    requires Inv(env) && Cached(env, {}) && AllAllowed(env, actions) && forall a :: a in actions ==> !RaisesLate(a)
    ensures LostIn(env, {}, actions) == {} && Cached(Run(env, actions), {})
    decreases |actions|
  {
    hide Inv, Act, Allowed, Cached, Settled;
    if actions != [] {
      assert actions[0] in actions && forall a :: a in actions[1..] ==> a in actions;
      assert Lost(env, {}, actions[0]) == {};
      ActInv(env, actions[0]);
      ActCached(env, {}, actions[0]);
      NothingLost(Act(env, actions[0]), actions[1..]);
    }
  }

  /** In one step: after docker_remove or close raises late, registry and daemon still agree exactly when the machine
      was on record with status error. */
  lemma LateRaiseIff(env: Env, machine: string)
    requires Inv(env) && Cached(env, {}) && machine != ""
    requires machine in env.machines.entries && env.machines.entries[machine].kind.Docker?
    ensures DockerRemove(env, Some(machine), RemoveRaises(true)) == Close(env, machine, RemoveRaises(true))
    ensures Cached(Close(env, machine, RemoveRaises(true)), {}) <==> env.machines.entries[machine].info.status == "error"
  {
    hide CloseMachine;
    var after := Close(env, machine, RemoveRaises(true));
    assert Agrees(after, machine) <==> env.machines.entries[machine].info.status == "error";
    forall m | m in env.machines.entries && m != machine ensures Agrees(after, m) { assert Agrees(env, m); }
  }

  lemma OneMachine(purpose: string)
    ensures var start, first := Env(NO_MACHINES, NO_SHELLS, map[]), DoDockerRun("dev", purpose, Accepted(true, true));
            && Inv(start) && Inv(Act(start, first)) && Cached(Act(start, first), {}) && Lost(start, {}, first) == {}
            && Act(start, first).machines.entries == map["dev" := Machine(Docker, Info("running", purpose), purpose)]
  {
    var start, first := Env(NO_MACHINES, NO_SHELLS, map[]), DoDockerRun("dev", purpose, Accepted(true, true));
    NothingRegistered(start);
    ActInv(start, first);
    ActCached(start, {}, first);
  }

  /** For example: run a machine, and lose the reply to its removal. */
  lemma LateRaiseRun(purpose: string)
    ensures var start := Env(NO_MACHINES, NO_SHELLS, map[]);
            var actions := [DoDockerRun("dev", purpose, Accepted(true, true)), DoDockerRemove(Some("dev"), RemoveRaises(true))];
            && AllAllowed(start, actions) && !Cached(Run(start, actions), {}) && LostIn(start, {}, actions) == {"dev"}
  {
    hide Inv, Cached, Retire, Create;
    OneMachine(purpose);
    var start := Env(NO_MACHINES, NO_SHELLS, map[]);
    var first, second := DoDockerRun("dev", purpose, Accepted(true, true)), DoDockerRemove(Some("dev"), RemoveRaises(true));
    var running := Act(start, first);
    LateRaiseIff(running, "dev");
    assert Lost(running, {}, second) == {"dev"};
    TwoActions(start, first, second);
  }

  lemma OneAction(env: Env, lost: set<string>, a: Action)
    requires Allowed(env, a)
    ensures AllAllowed(env, [a]) && Run(env, [a]) == Act(env, a) && LostIn(env, lost, [a]) == Lost(env, lost, a)
  {
    hide Act, Allowed, Lost;
    var one := [a];
    assert one[1..] == [];
  }

  lemma TwoActions(env: Env, first: Action, second: Action)
    requires Allowed(env, first) && Allowed(Act(env, first), second)
    ensures AllAllowed(env, [first, second]) && Run(env, [first, second]) == Act(Act(env, first), second)
    ensures LostIn(env, {}, [first, second]) == Lost(Act(env, first), Lost(env, {}, first), second)
  {
    hide Act, Allowed, Lost;
    var both, one := [first, second], [second];
    assert both[1..] == one && one[1..] == [] && both[0] == first;
    OneAction(Act(env, first), Lost(env, {}, first), second);
  }

  function ManagedNames(daemon: Daemon): set<string> {
    set c | c in daemon && daemon[c].managed && daemon[c].machine != ""
  }

  /** docker_ps leaves known machines alone and, when the daemon answers, adds exactly the missing labelled
      containers; repeating it with the same listing changes nothing. */
  lemma DockerPsRefreshes(env: Env, rows: seq<Listing>)
    requires Inv(env) && Lists(env.daemon, rows)
    ensures var e := DockerPs(env, rows);
            && (forall m :: m in env.machines.entries ==> m in e.machines.entries && e.machines.entries[m] == env.machines.entries[m])
            && (rows != [] ==> e.machines.entries.Keys == env.machines.entries.Keys + ManagedNames(env.daemon))
            && DockerPs(e, rows) == e
  {
    AdoptAllKeeps(env, rows);
    var e := DockerPs(env, rows);
    AdoptKnown(e.machines, env.daemon, rows);
  }

  lemma {:induction false} AdoptKnown(machines: Machines, daemon: Daemon, rows: seq<Listing>)
    requires forall row :: row in rows ==> row.container in daemon
    requires forall row :: row in rows ==>
               daemon[row.container].machine == "" || daemon[row.container].machine in machines.entries
    ensures AdoptAll(machines, daemon, rows) == machines
  {
    if rows != [] {
      assert rows[|rows| - 1] in rows && forall row :: row in rows[..|rows| - 1] ==> row in rows;
      AdoptKnown(machines, daemon, rows[..|rows| - 1]);
    }
  }

  /** The per-machine counts that machine_list shows add up to the number of registered shells. */
  lemma CountsCoverShells(env: Env)
    requires Inv(env)
    ensures TotalOf(env.shells, env.machines.order) == |env.shells.order|
  {
    CountsAddUp(env.shells, env.machines.order);
  }

  // ---------------------------------------------------------------- the object

  class SandboxEnv {
    const machines: T.TargetRegistry
    const shells: S.ShellRegistry
    var daemon: Daemon

    function Now(): Env
      reads this, machines, shells
    {
      Env(machines.Now(), shells.Now(), daemon)
    }

    constructor (machines: T.TargetRegistry, shells: S.ShellRegistry, daemon: Daemon)
      ensures this.machines == machines && this.shells == shells && this.daemon == daemon
    {
      this.machines := machines;
      this.shells := shells;
      this.daemon := daemon;
    }

    method OpShellNew(machine: Option<string>, opens: bool, healthy: bool, purpose: string, id: string)
      requires FreshId(shells.Now(), id)
      modifies shells
      ensures Now() == ShellNew(old(Now()), machine, opens, healthy, purpose, id)
    {
      var m := machines.ResolveMachine(machine);
      if m.None? || !opens { return; }
      var ok := shells.Open(m.value, purpose, healthy, id);
    }

    method OpShellRemove(id: string)
      modifies shells
      ensures Now() == ShellRemove(old(Now()), id)
    {
      var found := shells.Close(id);
    }

    method OpDefaultSet(machine: Option<Option<string>>, shell: Option<string>)
      modifies machines, shells
      ensures Now() == DefaultSet(old(Now()), machine, shell)
    {
      if machine.Some? == shell.Some? { return; }
      if machine.Some? {
        var m := machines.ResolveMachine(machine.value);
        if m.Some? { var ok := machines.SetDefault(m.value); }
        return;
      }
      var target := shells.SetDefault(shell.value);
    }

    method OpDockerRun(name: string, purpose: string, o: CreateOutcome)
      modifies this, machines
      ensures Now() == DockerRun(old(Now()), name, purpose, o)
    {
      var (after, info) := Create(daemon, name, purpose, o);
      daemon := after;
      if info.Some? { machines.Register(name, Docker, info.value, purpose); }
    }

    /** The decorator that resolves a Docker machine before a handler runs. */
    method ResolveDocker(machine: Option<string>) returns (m: Option<string>)
      ensures m == DockerMachine(Now(), machine)
    {
      m := machines.ResolveMachine(machine);
      if m.Some? && !(m.value in machines.entries && machines.entries[m.value].kind.Docker?) { m := None; }
    }

    method OpDockerStop(machine: Option<string>)
      requires WellFormed(shells.Now())
      modifies shells
      ensures Now() == DockerStop(old(Now()), machine)
    {
      var m := ResolveDocker(machine);
      if m.Some? { var count := shells.CloseAllForMachine(m.value); }
    }

    method OpDockerRemove(machine: Option<string>, o: RemoveOutcome)
      requires WellFormed(shells.Now())
      modifies this, machines, shells
      ensures Now() == DockerRemove(old(Now()), machine, o)
    {
      var m := ResolveDocker(machine);
      if m.None? { return; }
      var count := shells.CloseAllForMachine(m.value);
      daemon := Remove(daemon, m.value, o);
      if o.RemoveRaises? { return; }
      var found := machines.Unregister(m.value);
    }

    method OpDockerPs(rows: seq<Listing>)
      requires Lists(daemon, rows)
      modifies machines
      ensures Now() == DockerPs(old(Now()), rows)
    {
      assert rows[..0] == [];
      for i := 0 to |rows|
        invariant forall row :: row in rows[..i] ==> row.container in daemon
        invariant machines.Now() == AdoptAll(old(machines.Now()), daemon, rows[..i])
      {
        var row := rows[i];
        assert row in rows && rows[..i + 1][..i] == rows[..i];
        var c := daemon[row.container];
        if c.machine != "" { machines.Adopt(c.machine, Docker, Info(row.status, c.purpose)); }
      }
      assert rows[..|rows|] == rows;
    }

    method OpConnect(name: string, target: Option<string>, status: Option<string>, made: bool, id: string)
      requires FreshId(shells.Now(), id)
      modifies machines, shells
      ensures Now() == Connect(old(Now()), name, target, status, made, id)
    {
      if name == "" || target.None? || status.None? { return; }
      machines.Register(name, Ssh, Info(status.value, target.value), target.value);
      if status.value == "running" { var shell := shells.GetOrCreateDefault(name, made, id); }
    }

    method OpClose(name: string, o: RemoveOutcome)
      requires WellFormed(shells.Now())
      modifies this, machines, shells
      ensures Now() == Close(old(Now()), name, o)
    {
      if name == "" { return; }
      var m := machines.ResolveMachine(Some(name));
      if m.None? { return; }
      var kind := machines.entries[name].kind;
      var count := shells.CloseAllForMachine(name);
      if kind.Docker? { daemon := Remove(daemon, name, o); }
      if o.RemoveRaises? { return; }
      var found := machines.Unregister(name);
    }

    method ExecDefaultShell(machine: Option<string>, made: bool, id: string)
      requires FreshId(shells.Now(), id)
      modifies shells
      ensures Now() == ExecDefault(old(Now()), machine, made, id)
    {
      var m := machines.ResolveMachine(machine);
      if m.Some? { var shell := shells.GetOrCreateDefault(m.value, made, id); }
    }

    method ProvisionDefaultMachine(name: string, purpose: string, via: Via) returns (started: bool)
      modifies this, machines
      ensures (Now(), started) == Provision(old(Now()), name, purpose, via)
    {
      if name in machines.entries {
        var ok := machines.SetDefault(name);
        return true;
      }
      match via {
        case ViaDocker(o) => OpDockerRun(name, purpose, o);
        case ViaSsh(configured, status) =>
          if configured && status.Some? { machines.Register(name, Ssh, Info(status.value, purpose), purpose); }
        case ViaUnknown =>
      }
      if name !in machines.entries || machines.entries[name].info.status != "running" { return false; }
      var ok := machines.SetDefault(name);
      return true;
    }
  }
}
