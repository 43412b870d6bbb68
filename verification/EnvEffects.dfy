/** What each env action changes in the two registries and the daemon, and what it leaves alone. */
module EnvEffects {
  import opened Seqs
  import opened S = ShellRegistry
  import opened T = TargetRegistry
  import opened SandboxEnv

  /** The machine an action names: a registered one, or the default when none is named. */
  predicate Named(env: Env, machine: Option<string>, m: string) {
    m in env.machines.entries && (machine == Some(m) || (machine.None? && env.machines.default == Some(m)))
  }

  lemma NamedIsResolved(env: Env, machine: Option<string>)
    requires Inv(env)
    ensures forall m :: Named(env, machine, m) <==> Resolve(env.machines, machine) == Some(m)
  {
    Resolved(env, machine);
  }

  // ---------------------------------------------------------------- shells

  /** shell_new: with a machine named, a started and healthy shell is added last, on that machine, with its purpose, and
      nothing else changes; otherwise nothing changes. */
  lemma ShellNewEffect(env: Env, machine: Option<string>, m: string, opens: bool, healthy: bool, purpose: string, id: string)
    requires Inv(env)
    ensures var after := ShellNew(env, machine, opens, healthy, purpose, id);
            && (Named(env, machine, m) && opens && healthy ==>
                  && after.shells.order == env.shells.order + [id]
                  && after.shells.entries == env.shells.entries[id := S.Entry(m, purpose)]
                  && after.shells.defaults == env.shells.defaults
                  && (after.machines, after.daemon) == (env.machines, env.daemon))
            && (!opens || !healthy || (forall k :: !Named(env, machine, k)) ==> after == env)
  {
    NamedIsResolved(env, machine);
    if Resolve(env.machines, machine).Some? { assert Named(env, machine, Resolve(env.machines, machine).value); }
  }

  /** shell_remove: exactly that shell goes, and its machine's default if it was it; machines and daemon stay. */
  lemma ShellRemoveEffect(env: Env, id: string)
    requires Inv(env)
    ensures var after := ShellRemove(env, id);
            && (after.machines, after.daemon) == (env.machines, env.daemon)
            && after.shells.entries == env.shells.entries - {id}
            && (forall m :: m in after.shells.defaults <==> m in env.shells.defaults && env.shells.defaults[m] != id)
            && (forall m :: m in after.shells.defaults ==> after.shells.defaults[m] == env.shells.defaults[m])
            && (forall a, b :: env.shells.order == a + [id] + b ==> after.shells.order == a + b)
  {
    hide CloseShell;
    CloseEffect(env.shells, id);
    InvParts(env);
    if id in env.shells.entries { CloseIsRemove(env.shells, id); RemovedEntries(env.shells, {id}, env.shells.entries[id].machine); }
    else { assert env.shells.entries - {id} == env.shells.entries; }
  }

  /** default_set: a registered machine becomes the default machine, or a registered shell its machine's default shell;
      with both or neither given, or an unknown one, nothing changes. */
  lemma DefaultSetEffect(env: Env, machine: string, shell: string)
    requires Inv(env)
    ensures var after := DefaultSet(env, Some(Some(machine)), None);
            if machine in env.machines.entries then after == env.(machines := env.machines.(default := Some(machine)))
            else after == env
    ensures var after := DefaultSet(env, None, Some(shell));
            && (after.machines, after.daemon) == (env.machines, env.daemon)
            && (after.shells.order, after.shells.entries) == (env.shells.order, env.shells.entries)
            && after.shells.defaults ==
               if shell in env.shells.entries then env.shells.defaults[env.shells.entries[shell].machine := shell]
               else env.shells.defaults
    ensures DefaultSet(env, None, None) == env && DefaultSet(env, Some(Some(machine)), Some(shell)) == env
  {
    ChooseEffect(env.shells, shell);
  }

  /** The shells after asking for a machine's default: the same when it has one; else with a new one, if it starts. */
  predicate HasDefaultShell(before: Shells, after: Shells, m: string, made: bool, id: string) {
    if m in before.defaults || !made then after == before
    else after == Shells(before.order + [id], before.entries[id := S.Entry(m, "default")], before.defaults[m := id])
  }

  /** No shell has the empty id; so in every run from a server start. */
  ghost predicate IdsNonEmpty(env: Env) { "" !in env.shells.entries }

  /** shell_exec finds the named machine's default shell or makes one; without a machine nothing changes. */
  lemma ExecDefaultEffect(env: Env, machine: Option<string>, m: string, made: bool, id: string)
    requires Inv(env) && IdsNonEmpty(env)
    ensures var after := ExecDefault(env, machine, made, id);
            && (after.machines, after.daemon) == (env.machines, env.daemon)
            && (Named(env, machine, m) ==> HasDefaultShell(env.shells, after.shells, m, made, id))
            && ((forall k :: !Named(env, machine, k)) ==> after == env)
  {
    hide DefaultShell;
    NamedIsResolved(env, machine);
    InvParts(env);
    if Named(env, machine, m) { DefaultEffect(env.shells, m, made, id); }
    if Resolve(env.machines, machine).Some? { assert Named(env, machine, Resolve(env.machines, machine).value); }
  }

  /** No action gives a shell the empty id. */
  lemma IdsStayNonEmpty(env: Env, a: Action)
    requires Inv(env) && IdsNonEmpty(env) && Allowed(env, a)
    ensures IdsNonEmpty(Act(env, a))
  {
    hide Inv, Without, Lists, AdoptAll, Create, Add, Drop;
  }

  lemma {:induction false} IdsNonEmptyIn(env: Env, actions: seq<Action>)
    requires Inv(env) && IdsNonEmpty(env) && AllAllowed(env, actions)
    ensures IdsNonEmpty(Run(env, actions))
    decreases |actions|
  {
    hide Inv, Act, Allowed, IdsNonEmpty;
    if actions != [] {
      IdsStayNonEmpty(env, actions[0]);
      ActInv(env, actions[0]);
      IdsNonEmptyIn(Act(env, actions[0]), actions[1..]);
    }
  }

  // ---------------------------------------------------------------- machines

  /** The shells after a machine's shells were closed: the others, with their defaults. */
  ghost predicate ClosedOn(before: Shells, after: Shells, m: string) {
    && after.entries == (map id | id in before.entries && before.entries[id].machine != m :: before.entries[id])
    && after.defaults == before.defaults - {m}
    && after.order == Without(before.order, set id | id in before.entries && before.entries[id].machine == m)
  }

  lemma ClosedOnRight(env: Env, m: string)
    requires Inv(env)
    ensures ClosedOn(env.shells, CloseMachine(env.shells, m), m)
  {
    CloseMachineRest(env.shells, m);
  }

  /** The machine a Docker action names: as above, and in Docker. */
  predicate NamedDocker(env: Env, machine: Option<string>, m: string) {
    Named(env, machine, m) && env.machines.entries[m].kind.Docker?
  }

  lemma NamedDockerIsMachine(env: Env, machine: Option<string>)
    requires Inv(env)
    ensures forall m :: NamedDocker(env, machine, m) <==> DockerMachine(env, machine) == Some(m)
  {
    NamedIsResolved(env, machine);
  }

  /** docker_stop closes the named Docker machine's shells, and changes nothing else. */
  lemma DockerStopEffect(env: Env, machine: Option<string>, m: string)
    requires Inv(env)
    ensures var after := DockerStop(env, machine);
            && (after.machines, after.daemon) == (env.machines, env.daemon)
            && (NamedDocker(env, machine, m) ==> ClosedOn(env.shells, after.shells, m))
            && ((forall k :: !NamedDocker(env, machine, k)) ==> after == env)
  {
    hide CloseMachine, ClosedOn;
    NamedDockerIsMachine(env, machine);
    ClosedOnRight(env, m);
    var d := DockerMachine(env, machine);
    if d.Some? { assert NamedDocker(env, machine, d.value); }
  }

  /** A removed machine: its shells are closed in any case; it is unregistered unless the removal raises; and its container
      is gone when the daemon removed it, whether or not the call then raised. Other machines and containers stay. */
  ghost predicate Gone(env: Env, after: Env, m: string, o: RemoveOutcome) {
    && ClosedOn(env.shells, after.shells, m)
    && (o.RemoveRaises? ==> after.machines == env.machines)
    && (!o.RemoveRaises? ==> after.machines == Drop(env.machines, m).0 && after.machines.entries == env.machines.entries - {m})
    && after.daemon == (if m in env.machines.entries && env.machines.entries[m].kind.Docker?
                           && (o == Removed || o == RemoveRaises(true)) then env.daemon - {m} else env.daemon)
  }

  lemma RetireGone(env: Env, m: string, o: RemoveOutcome)
    requires Inv(env) && m in env.machines.entries
    ensures Gone(env, Retire(env, m, env.machines.entries[m].kind.Docker?, o), m, o)
  {
    hide CloseMachine, ClosedOn, Drop;
    InvParts(env);
    ClosedOnRight(env, m);
    DropKeeps(env.machines, m);
  }

  lemma DockerRemoveEffect(env: Env, machine: Option<string>, m: string, o: RemoveOutcome)
    requires Inv(env)
    ensures NamedDocker(env, machine, m) ==> Gone(env, DockerRemove(env, machine, o), m, o)
    ensures (forall k :: !NamedDocker(env, machine, k)) ==> DockerRemove(env, machine, o) == env
  {
    hide Retire, Gone;
    NamedDockerIsMachine(env, machine);
    if NamedDocker(env, machine, m) { RetireGone(env, m, o); }
    var d := DockerMachine(env, machine);
    if d.Some? { assert NamedDocker(env, machine, d.value); }
  }

  /** close does the same for a registered machine of either backend, and nothing for other names. */
  lemma CloseActionEffect(env: Env, name: string, o: RemoveOutcome)
    requires Inv(env)
    ensures if name != "" && name in env.machines.entries then Gone(env, Close(env, name, o), name, o)
            else Close(env, name, o) == env
  {
    hide Retire, Gone;
    if name in env.machines.entries { RetireGone(env, name, o); }
  }

  /** docker_run: a new container carries the name and the purpose and is on record as running; a taken name is reattached
      with the purpose the container has, running or in error; a failure is on record as an error, and an exception
      not at all. Shells stay. */
  lemma DockerRunEffect(env: Env, name: string, purpose: string, o: CreateOutcome)
    ensures var after := DockerRun(env, name, purpose, o);
            && after.shells == env.shells
            && (o.Raises? ==> after.machines == env.machines)
            && (!o.Raises? ==> after.machines == Add(env.machines, name, Machine(Docker, after.machines.entries[name].info, purpose))
                               && after.machines.entries == env.machines.entries[name := after.machines.entries[name]])
            && (o.SetupFails? || o.ImageMissing? || o.ApiFails? ==> after.machines.entries[name].info == Info("error", purpose))
            && (o.Accepted? ==>
                  && name in after.daemon
                  && after.machines.entries[name].info.purpose == after.daemon[name].purpose
                  && after.machines.entries[name].info.status ==
                     if name !in env.daemon || (o.starts && o.stays) then "running" else "error")
            && after.daemon == (if name !in env.daemon && (o.Accepted? || (o.Raises? && o.left) || (o.ApiFails? && o.leaves))
                                then env.daemon[name := Container(true, name, purpose)] else env.daemon)
  {
    AddEffect(env.machines, name, Machine(Docker, Info("running", purpose), purpose));
  }

  /** docker_ps: every machine it adds is on record as the daemon lists it, in state and purpose. */
  lemma {:induction false} DockerPsEffect(env: Env, rows: seq<Listing>)
    requires Inv(env) && Lists(env.daemon, rows)
    ensures var after := DockerPs(env, rows);
            && (after.shells, after.daemon) == (env.shells, env.daemon)
            && forall m :: m in after.machines.entries && m !in env.machines.entries ==>
                 exists row :: row in rows && row.container == m && after.machines.entries[m] ==
                   Machine(Docker, Info(row.status, env.daemon[m].purpose), env.daemon[m].purpose)
  {
    hide Inv;
    InvParts(env);
    ListsRows(env.daemon, rows);
    AddedAsListed(env, rows);
  }

  lemma {:induction false} AddedAsListed(env: Env, rows: seq<Listing>)
    requires Labelled(env.daemon) && forall row :: row in rows ==> row.container in env.daemon && env.daemon[row.container].managed
    ensures var after := AdoptAll(env.machines, env.daemon, rows);
            forall m :: m in after.entries && m !in env.machines.entries ==>
              exists row :: row in rows && row.container == m && after.entries[m] ==
                Machine(Docker, Info(row.status, env.daemon[m].purpose), env.daemon[m].purpose)
  {
    if rows != [] {
      var n := |rows| - 1;
      var row := rows[n];
      assert row in rows && forall r :: r in rows[..n] ==> r in rows;
      AddedAsListed(env, rows[..n]);
      var before := AdoptAll(env.machines, env.daemon, rows[..n]);
      var c := env.daemon[row.container];
      AdoptEffect(before, c.machine, Docker, Info(row.status, c.purpose));
    }
  }

  /** connect: a configured target that create answers for is on record with that status, and has a default shell when it
      runs; nothing changes for an empty or unknown name, or when create raises. */
  lemma ConnectEffect(env: Env, name: string, target: Option<string>, status: Option<string>, made: bool, id: string)
    requires Inv(env) && IdsNonEmpty(env)
    ensures var after := Connect(env, name, target, status, made, id);
            if name == "" || target.None? || status.None? then after == env
            else
              && after.daemon == env.daemon
              && after.machines.entries == env.machines.entries[name := Machine(Ssh, Info(status.value, target.value), target.value)]
              && after.machines.default == (if env.machines.default.Some? then env.machines.default else Some(name))
              && if status.value == "running" then HasDefaultShell(env.shells, after.shells, name, made, id)
                 else after.shells == env.shells
  {
    hide DefaultShell, Add;
    if target.Some? && status.Some? {
      AddEffect(env.machines, name, Machine(Ssh, Info(status.value, target.value), target.value));
    }
    InvParts(env);
    DefaultEffect(env.shells, name, made, id);
  }

  /** Provisioning: a known machine becomes the default; else it is created, and becomes the default exactly when it then
      runs; otherwise the server does not start. Shells stay. */
  lemma ProvisionEffect(env: Env, name: string, purpose: string, via: Via)
    ensures var (after, started) := Provision(env, name, purpose, via);
            && after.shells == env.shells
            && (name in env.machines.entries ==> started && after == env.(machines := env.machines.(default := Some(name))))
            && (name !in env.machines.entries ==>
                  && (started <==> name in after.machines.entries && after.machines.entries[name].info.status == "running")
                  && (started ==> after.machines.default == Some(name))
                  && (via.ViaDocker? ==> after.machines.entries == DockerRun(env, name, purpose, via.o).machines.entries
                                         && after.daemon == DockerRun(env, name, purpose, via.o).daemon)
                  && (!via.ViaDocker? ==> after.daemon == env.daemon)
                  && (via.ViaSsh? && via.configured && via.status.Some? ==>
                        after.machines.entries == env.machines.entries[name := Machine(Ssh, Info(via.status.value, purpose), purpose)])
                  && (via.ViaUnknown? || (via.ViaSsh? && (!via.configured || via.status.None?)) ==> after == env && !started))
  {
    hide Create;
  }
}
