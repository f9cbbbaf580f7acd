/**
 * The machine-provisioning cron script (`MACHINE_CRONTAB` in
 * `utils/experiment.py`): while fewer than five machines are available,
 * compute the next address and eggname from the current machine table and
 * clone one machine with them; `set -e` ends the run at the first failing
 * command.
 */
module Provisioning {
  import opened Wrappers
  import opened Text
  import opened Records
  import opened Allocators

  /** The script keeps at least this many machines available. */
  const Floor: nat := 5

  /** The machine `vmcloak-clone ... --hostonly-ip IP NAME --tags longterm` registers. */
  function Cloned(name: string, ip: string): Machine
  {
    Machine(name, ip, ["longterm"], Free)
  }

  /** Why a run of the script ended. */
  datatype Stop =
    | FloorReached                          // the `while` test failed
    | AllocationFailed(error: AllocationError)  // `allocate-ipaddr` exited 1 (or raised)
    | CloneFailed                           // `vmcloak-clone` failed

  datatype Run = Run(fleet: seq<Machine>, stop: Stop)

  lemma CountAvailableAppend(ms: seq<Machine>, m: Machine)
    ensures CountAvailable(ms + [m]) == CountAvailable(ms) + if Available(m) then 1 else 0
  {
    assert (ms + [m])[..|ms|] == ms;
  }

  /** The machine one pass clones into the table `ms`: the next address, the next eggname. */
  function NextMachine(ms: seq<Machine>): (r: Result<Machine, AllocationError>)
    ensures r.Ok? ==> Available(r.value) && r.value.tags == ["longterm"]
  {
    match NextAddress(Addresses(ms))
    case Err(e) => Err(e)
    case Ok(ip) => Ok(Cloned(AllocateEggname(|ms|), ip))
  }

  /**
   * The rest of a run, from pass `pass` on, over the machine table `machines`.
   * `cloneOk(k)` is the outcome of the clone command of pass `k`.
   */
  function ProvisionFrom(machines: seq<Machine>, cloneOk: nat -> bool, pass: nat): Run
    decreases Floor - CountAvailable(machines)
  {
    if CountAvailable(machines) >= Floor then Run(machines, FloorReached)
    else match NextMachine(machines)
      case Err(e) => Run(machines, AllocationFailed(e))
      case Ok(m) =>
        if !cloneOk(pass) then Run(machines, CloneFailed)
        else
          CountAvailableAppend(machines, m);
          ProvisionFrom(machines + [m], cloneOk, pass + 1)
  }

  /** The machine pass `k` of a run clones: its address and name recomputed from the first `k` machines. */
  ghost predicate ClonedAt(fleet: seq<Machine>, k: nat)
    requires k < |fleet|
  {
    NextMachine(fleet[..k]) == Ok(fleet[k])
  }

  /** What a run does to the table: it only appends machines, each cloned with freshly computed parameters. */
  ghost predicate Extends(machines: seq<Machine>, fleet: seq<Machine>)
  {
    |machines| <= |fleet| && fleet[..|machines|] == machines &&
    forall k :: |machines| <= k < |fleet| ==> ClonedAt(fleet, k)
  }

  lemma ExtendsRefl(machines: seq<Machine>)
    ensures Extends(machines, machines)
  {
  }

  /** Appending the machine the next pass clones keeps a table an extension of the original. */
  lemma ExtendsAppend(machines: seq<Machine>, fleet: seq<Machine>, m: Machine)
    requires Extends(machines, fleet) && NextMachine(fleet) == Ok(m)
    ensures Extends(machines, fleet + [m])
  {
    var next := fleet + [m];
    assert next[..|fleet|] == fleet;
    assert next[..|machines|] == fleet[..|machines|];
    forall k | |machines| <= k < |next| ensures ClonedAt(next, k) {
      if k < |fleet| {
        assert next[..k] == fleet[..k];
        assert ClonedAt(fleet, k);
      }
    }
  }

  /** The script: one clone per pass until the floor is reached or a command fails. */
  method ProvisionMachines(machines: seq<Machine>, cloneOk: nat -> bool) returns (fleet: seq<Machine>, stop: Stop)
    ensures Run(fleet, stop) == ProvisionFrom(machines, cloneOk, 0)
    ensures Extends(machines, fleet)
    ensures stop == FloorReached <==> CountAvailable(fleet) >= Floor
    ensures CountAvailable(fleet) == CountAvailable(machines) + (|fleet| - |machines|)
  {
    fleet, stop := machines, FloorReached;
    var pass := 0;
    while CountAvailable(fleet) < Floor
      invariant ProvisionFrom(fleet, cloneOk, pass) == ProvisionFrom(machines, cloneOk, 0)
      invariant stop == FloorReached
      decreases Floor - CountAvailable(fleet)
    {
      var ip := AllocateIpAddress(Addresses(fleet));
      if ip.Err? {
        ProvisionStopsAt(fleet, cloneOk, pass);
        stop := AllocationFailed(ip.error);
        break;
      }
      var name := AllocateEggname(|fleet|);
      if !cloneOk(pass) {
        ProvisionStopsAt(fleet, cloneOk, pass);
        stop := CloneFailed;
        break;
      }
      var m := Cloned(name, ip.value);
      ProvisionContinues(fleet, cloneOk, pass, m);
      fleet := fleet + [m];
      pass := pass + 1;
    }
    if CountAvailable(fleet) >= Floor {
      ProvisionStopsAt(fleet, cloneOk, pass);
    }
    ProvisionShape(machines, cloneOk, 0);
  }

  /** A pass that ends the run: the floor test fails, the allocation fails, or the clone fails. */
  lemma ProvisionStopsAt(fleet: seq<Machine>, cloneOk: nat -> bool, pass: nat)
    ensures CountAvailable(fleet) >= Floor ==> ProvisionFrom(fleet, cloneOk, pass) == Run(fleet, FloorReached)
    ensures CountAvailable(fleet) < Floor && NextAddress(Addresses(fleet)).Err? ==>
      ProvisionFrom(fleet, cloneOk, pass) == Run(fleet, AllocationFailed(NextAddress(Addresses(fleet)).error))
    ensures CountAvailable(fleet) < Floor && NextAddress(Addresses(fleet)).Ok? && !cloneOk(pass) ==>
      ProvisionFrom(fleet, cloneOk, pass) == Run(fleet, CloneFailed)
  {
  }

  /** A pass that clones: the run goes on from the table with the machine appended. */
  lemma ProvisionContinues(fleet: seq<Machine>, cloneOk: nat -> bool, pass: nat, m: Machine)
    requires CountAvailable(fleet) < Floor && cloneOk(pass)
    requires NextAddress(Addresses(fleet)) == Ok(m.ip)
    requires m == Cloned(AllocateEggname(|fleet|), m.ip)
    ensures ProvisionFrom(fleet, cloneOk, pass) == ProvisionFrom(fleet + [m], cloneOk, pass + 1)
    ensures CountAvailable(fleet + [m]) == CountAvailable(fleet) + 1
  {
    assert NextMachine(fleet) == Ok(m);
    CountAvailableAppend(fleet, m);
  }

  /** A run stops at the floor, or at the first failure, and every machine it adds is available. */
  lemma {:induction false} ProvisionShape(machines: seq<Machine>, cloneOk: nat -> bool, pass: nat)
    ensures var r := ProvisionFrom(machines, cloneOk, pass);
      && Extends(machines, r.fleet)
      && (r.stop == FloorReached <==> CountAvailable(r.fleet) >= Floor)
      && CountAvailable(r.fleet) == CountAvailable(machines) + (|r.fleet| - |machines|)
    decreases Floor - CountAvailable(machines)
  {
    if CountAvailable(machines) < Floor && NextMachine(machines).Ok? && cloneOk(pass) {
      var m := NextMachine(machines).value;
      var next := machines + [m];
      CountAvailableAppend(machines, m);
      ProvisionShape(next, cloneOk, pass + 1);
      var fleet := ProvisionFrom(next, cloneOk, pass + 1).fleet;
      ExtendsRefl(machines);
      ExtendsAppend(machines, machines, m);
      ExtendsTrans(machines, next, fleet);
    }
  }

  lemma ExtendsTrans(a: seq<Machine>, b: seq<Machine>, c: seq<Machine>)
    requires Extends(a, b) && Extends(b, c)
    ensures Extends(a, c)
  {
    assert c[..|a|] == c[..|b|][..|a|];
    forall k | |a| <= k < |c| ensures ClonedAt(c, k) {
      if k < |b| {
        assert ClonedAt(b, k);
        assert c[..k] == b[..k];
        assert c[k] == b[k];
      }
    }
  }

  /** A run that reaches the floor clones exactly as many machines as were missing. */
  lemma ProvisionClonesMissing(machines: seq<Machine>, cloneOk: nat -> bool)
    requires ProvisionFrom(machines, cloneOk, 0).stop == FloorReached
    ensures var added := |ProvisionFrom(machines, cloneOk, 0).fleet| - |machines|;
      added == if CountAvailable(machines) >= Floor then 0 else Floor - CountAvailable(machines)
  {
    ProvisionShape(machines, cloneOk, 0);
    if CountAvailable(machines) < Floor {
      ProvisionReachesExactlyFloor(machines, cloneOk, 0);
    }
  }

  /** Starting below the floor, a run never overshoots it. */
  lemma {:induction false} ProvisionReachesExactlyFloor(machines: seq<Machine>, cloneOk: nat -> bool, pass: nat)
    requires CountAvailable(machines) < Floor
    ensures CountAvailable(ProvisionFrom(machines, cloneOk, pass).fleet) <= Floor
    decreases Floor - CountAvailable(machines)
  {
    if NextMachine(machines).Ok? && cloneOk(pass) {
      var m := NextMachine(machines).value;
      CountAvailableAppend(machines, m);
      if CountAvailable(machines + [m]) < Floor {
        ProvisionReachesExactlyFloor(machines + [m], cloneOk, pass + 1);
      }
    }
  }

  /** No machine a run adds reuses an address already in the table when it was cloned. */
  lemma ProvisionAddressesFresh(machines: seq<Machine>, fleet: seq<Machine>, k: nat)
    requires Extends(machines, fleet) && |machines| <= k < |fleet|
    ensures fleet[k].ip !in Addresses(fleet[..k])
  {
    assert ClonedAt(fleet, k);
    NextAddressFresh(Addresses(fleet[..k]));
  }

  /** The machines a run adds have pairwise distinct eggnames. */
  lemma ProvisionNamesDistinct(machines: seq<Machine>, fleet: seq<Machine>, j: nat, k: nat)
    requires Extends(machines, fleet) && |machines| <= j < k < |fleet|
    ensures fleet[j].name != fleet[k].name
  {
    assert ClonedAt(fleet, j) && ClonedAt(fleet, k);
    if fleet[j].name == fleet[k].name {
      EggnameInjective(j, k);
    }
  }
}
