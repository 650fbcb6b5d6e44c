/** The container engine as the repository's own fake defines it (internal/docker/fake.go), driven by
    a process that may die between or during any two calls.

    A duplicate name is refused, a failed start has not started the container, and a failed stop,
    create, remove or rename may still have taken effect. */
module Docker {
  import opened Bytes

  datatype CState = Created | Up | Exited

  /** `routed` is the label that makes Traefik route to the container; `app` the app or database it belongs to. */
  datatype Container = Container(name: Str, app: Str, image: Str, state: CState, routed: bool, mounts: set<Str>)

  type Containers = map<nat, Container>

  /** How a call ends: it works; it fails without effect; it takes effect and reports failure; or the
      process dies before or after the effect. */
  datatype Outcome = Done | Refused | LateError | DiesBefore | DiesAfter

  predicate Lands(o: Outcome) { o == Done || o == LateError || o == DiesAfter }

  predicate Starts(o: Outcome) { o == Done || o == DiesAfter }

  predicate Kills(o: Outcome) { o == DiesBefore || o == DiesAfter }

  datatype Found = FindError | Missing | Found(id: nat)

  predicate Named(cs: Containers, id: nat, name: Str) { id in cs && cs[id].name == name }

  predicate NameFree(cs: Containers, name: Str) { forall id :: id in cs ==> cs[id].name != name }

  predicate UniqueNames(cs: Containers) {
    forall i, j :: i in cs && j in cs && cs[i].name == cs[j].name ==> i == j
  }

  /** The containers with neither of two names. */
  function Others(cs: Containers, a: Str, b: Str): Containers {
    map id | id in cs && cs[id].name != a && cs[id].name != b :: cs[id]
  }

  /** Creating, changing, renaming and removing a container under one of the two names leaves the others alone. */
  lemma OthersKept(cs: Containers, a: Str, b: Str, id: nat, c: Container)
    requires id in cs ==> cs[id].name == a || cs[id].name == b
    requires c.name == a || c.name == b
    ensures Others(cs[id := c], a, b) == Others(cs, a, b)
    ensures Others(cs - {id}, a, b) == Others(cs, a, b)
  {
  }

  class Host {
    var cs: Containers
    var next: nat
    /** The process driving the host has died: its further calls reach nothing. */
    var dead: bool

    predicate Valid()
      reads this
    {
      (forall id :: id in cs ==> id < next) && UniqueNames(cs)
    }

    constructor ()
      ensures Valid() && cs == map[] && !dead
    {
      cs, next, dead := map[], 0, false;
    }

    /** A call that touches no container: a pull, a probe, a read. */
    method Call(o: Outcome) returns (ok: bool)
      modifies this`dead
      ensures ok == (!old(dead) && o == Done)
      ensures dead == (old(dead) || Kills(o))
    {
      ok := !dead && o == Done;
      dead := dead || Kills(o);
    }

    method Find(name: Str, o: Outcome) returns (r: Found)
      requires Valid()
      modifies this`dead
      ensures r.FindError? <==> old(dead) || o != Done
      ensures r.Missing? ==> NameFree(cs, name)
      ensures r.Found? ==> Named(cs, r.id, name)
      ensures dead == (old(dead) || Kills(o))
    {
      var reached := !dead && o == Done;
      dead := dead || Kills(o);
      if !reached { return FindError; }
      if id :| id in cs && cs[id].name == name { return Found.Found(id); }
      return Missing;
    }

    method Create(c: Container, o: Outcome) returns (r: Option<nat>)
      requires Valid() && c.state == Created
      modifies this
      ensures Valid()
      ensures var lands := !old(dead) && Lands(o) && NameFree(old(cs), c.name);
        && cs == (if lands then old(cs)[old(next) := c] else old(cs))
        && r == (if lands && o == Done then Some(old(next)) else None)
      ensures old(next) <= next && old(next) !in old(cs)
      ensures o == Refused || o == DiesBefore ==> cs == old(cs)
      ensures dead == (old(dead) || Kills(o))
    {
      var lands := !dead && Lands(o) && forall id :: id in cs ==> cs[id].name != c.name;
      r := if lands && o == Done then Some(next) else None;
      if lands {
        cs := cs[next := c];
        next := next + 1;
      }
      dead := dead || Kills(o);
    }

    method Start(id: nat, o: Outcome) returns (ok: bool)
      requires Valid()
      modifies this`cs, this`dead
      ensures Valid()
      ensures cs == if !old(dead) && Starts(o) && id in old(cs) then old(cs)[id := old(cs)[id].(state := Up)] else old(cs)
      ensures ok == (!old(dead) && o == Done && id in old(cs))
      ensures o == Refused || o == DiesBefore ==> cs == old(cs)
      ensures dead == (old(dead) || Kills(o))
    {
      ok := !dead && o == Done && id in cs;
      if !dead && Starts(o) && id in cs { cs := cs[id := cs[id].(state := Up)]; }
      dead := dead || Kills(o);
    }

    method Stop(id: nat, o: Outcome) returns (ok: bool)
      requires Valid()
      modifies this`cs, this`dead
      ensures Valid()
      ensures cs == if !old(dead) && Lands(o) && id in old(cs) then old(cs)[id := old(cs)[id].(state := Exited)] else old(cs)
      ensures ok == (!old(dead) && o == Done && id in old(cs))
      ensures o == Refused || o == DiesBefore ==> cs == old(cs)
      ensures dead == (old(dead) || Kills(o))
    {
      ok := !dead && o == Done && id in cs;
      if !dead && Lands(o) && id in cs { cs := cs[id := cs[id].(state := Exited)]; }
      dead := dead || Kills(o);
    }

    method Remove(id: nat, o: Outcome) returns (ok: bool)
      requires Valid()
      modifies this`cs, this`dead
      ensures Valid()
      ensures cs == if !old(dead) && Lands(o) then old(cs) - {id} else old(cs)
      ensures ok == (!old(dead) && o == Done && id in old(cs))
      ensures o == Refused || o == DiesBefore ==> cs == old(cs)
      ensures dead == (old(dead) || Kills(o))
    {
      ok := !dead && o == Done && id in cs;
      if !dead && Lands(o) { cs := cs - {id}; }
      dead := dead || Kills(o);
    }

    method Rename(id: nat, name: Str, o: Outcome) returns (ok: bool)
      requires Valid()
      modifies this`cs, this`dead
      ensures Valid()
      ensures var lands := !old(dead) && Lands(o) && id in old(cs) && NameFree(old(cs), name);
        && cs == (if lands then old(cs)[id := old(cs)[id].(name := name)] else old(cs))
        && ok == (lands && o == Done)
      ensures o == Refused || o == DiesBefore ==> cs == old(cs)
      ensures dead == (old(dead) || Kills(o))
    {
      var lands := !dead && Lands(o) && id in cs && forall k :: k in cs ==> cs[k].name != name;
      ok := lands && o == Done;
      if lands { cs := cs[id := cs[id].(name := name)]; }
      dead := dead || Kills(o);
    }
  }
}
