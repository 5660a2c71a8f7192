/**
  The per-process address space of the parse engine: loaded modules keyed by
  the address range they occupy, with lookup of the module at an address.
*/
module ModuleSpaces {
  import opened Common
  import opened Bytes

  /** A loaded image: where it sits, how large it is, and which file it is. */
  datatype ModuleInfo = ModuleInfo(
    baseAddress: u64,
    moduleSize: u64,
    checksum: u32,
    timeDateStamp: u32,
    path: seq<wchar>)

  /** `addr` lies in the module's range [base, base + size). */
  predicate Contains(m: ModuleInfo, addr: int)
  {
    m.baseAddress <= addr < m.baseAddress + m.moduleSize
  }

  /** The two ranges share at least one address. */
  predicate Intersects(a: ModuleInfo, b: ModuleInfo)
  {
    a.baseAddress < b.baseAddress + b.moduleSize && b.baseAddress < a.baseAddress + a.moduleSize
  }

  lemma IntersectsWhenShared(a: ModuleInfo, b: ModuleInfo, addr: int)
    requires Contains(a, addr) && Contains(b, addr)
    ensures Intersects(a, b)
  {
  }

  /** The modules of one process, in registration order. */
  type ModuleSpace = seq<ModuleInfo>

  /** Distinct registered modules never share an address. */
  predicate Disjoint(space: ModuleSpace)
  {
    forall a, b :: a in space && b in space && a != b ==> !Intersects(a, b)
  }

  /** Some registered module shares an address with `m`. */
  predicate Overlaps(space: ModuleSpace, m: ModuleInfo)
  {
    exists k :: 0 <= k < |space| && Intersects(space[k], m)
  }

  /** The first registered module whose range holds `addr`, if any. */
  function Find(space: ModuleSpace, addr: int): (r: Option<ModuleInfo>)
    ensures r.Some? ==> r.value in space && Contains(r.value, addr)
    ensures r.None? <==> forall m :: m in space ==> !Contains(m, addr)
  {
    if space == [] then None
    else if Contains(space[0], addr) then Some(space[0])
    else
      var r := Find(space[1..], addr);
      assert forall m :: m in space ==> m == space[0] || m in space[1..];
      r
  }

  /** In a disjoint space the module holding an address is the only answer. */
  lemma FindUnique(space: ModuleSpace, m: ModuleInfo, addr: int)
    requires Disjoint(space) && m in space && Contains(m, addr)
    ensures Find(space, addr) == Some(m)
  {
    var r := Find(space, addr);
    if r.value != m {
      IntersectsWhenShared(r.value, m, addr);
    }
  }

  lemma {:induction false} FindAppend(space: ModuleSpace, m: ModuleInfo, addr: int)
    requires !Contains(m, addr)
    ensures Find(space + [m], addr) == Find(space, addr)
  {
    if space != [] {
      assert (space + [m])[1..] == space[1..] + [m];
      FindAppend(space[1..], m, addr);
    } else {
      assert ([] + [m])[1..] == [];
    }
  }

  /**
    Registers `m`.  Registering a module already present succeeds and changes
    nothing; a module overlapping a different one is rejected and the space
    is left as it was; otherwise `m` is added.
  */
  function AddModule(space: ModuleSpace, m: ModuleInfo): (r: (ModuleSpace, bool))
    ensures r.1 <==> m in space || !Overlaps(space, m)
    ensures !r.1 ==> r.0 == space
    ensures forall x :: x in r.0 <==> x in space || (r.1 && x == m)
  {
    if m in space then (space, true)
    else if Overlaps(space, m) then (space, false)
    else (space + [m], true)
  }

  lemma AddKeepsDisjoint(space: ModuleSpace, m: ModuleInfo)
    requires Disjoint(space)
    ensures Disjoint(AddModule(space, m).0)
  {
    if m !in space && !Overlaps(space, m) {
      var s := space + [m];
      forall a, b | a in s && b in s && a != b
        ensures !Intersects(a, b)
      {
        if a == m {
          var k :| 0 <= k < |space| && space[k] == b;
        } else if b == m {
          var k :| 0 <= k < |space| && space[k] == a;
        }
      }
    }
  }

  /** After a successful registration every address of `m` resolves to `m`. */
  lemma AddResolves(space: ModuleSpace, m: ModuleInfo, addr: int)
    requires Disjoint(space) && AddModule(space, m).1 && Contains(m, addr)
    ensures Find(AddModule(space, m).0, addr) == Some(m)
  {
    AddKeepsDisjoint(space, m);
    FindUnique(AddModule(space, m).0, m, addr);
  }

  /** Registration changes the answer for no address outside `m`. */
  lemma AddKeepsOthers(space: ModuleSpace, m: ModuleInfo, addr: int)
    requires !Contains(m, addr)
    ensures Find(AddModule(space, m).0, addr) == Find(space, addr)
  {
    if m !in space && !Overlaps(space, m) {
      FindAppend(space, m, addr);
    }
  }

  /** `space` without `m`, the others in their order. */
  function Without(space: ModuleSpace, m: ModuleInfo): (r: ModuleSpace)
    ensures forall x :: x in r <==> x in space && x != m
  {
    if space == [] then []
    else
      var rest := Without(space[1..], m);
      assert forall x :: x in space <==> x == space[0] || x in space[1..];
      if space[0] == m then rest else [space[0]] + rest
  }

  /**
    Unregisters `m`: it succeeds only when exactly this module is
    registered, and leaves the space as it was otherwise.
  */
  function RemoveModule(space: ModuleSpace, m: ModuleInfo): (r: (ModuleSpace, bool))
    ensures r.1 <==> m in space
    ensures !r.1 ==> r.0 == space
    ensures forall x :: x in r.0 <==> x in space && (!r.1 || x != m)
  {
    if m in space then (Without(space, m), true) else (space, false)
  }

  lemma RemoveKeepsDisjoint(space: ModuleSpace, m: ModuleInfo)
    requires Disjoint(space)
    ensures Disjoint(RemoveModule(space, m).0)
  {
  }

  /** After a successful removal no address of `m` resolves to anything. */
  lemma RemoveUnresolves(space: ModuleSpace, m: ModuleInfo, addr: int)
    requires Disjoint(space) && RemoveModule(space, m).1 && Contains(m, addr)
    ensures Find(RemoveModule(space, m).0, addr) == None
  {
    var s := RemoveModule(space, m).0;
    forall x | x in s
      ensures !Contains(x, addr)
    {
      if Contains(x, addr) {
        IntersectsWhenShared(x, m, addr);
      }
    }
  }

  /** Removal changes the answer for no address outside `m`. */
  lemma RemoveKeepsOthers(space: ModuleSpace, m: ModuleInfo, addr: int)
    requires Disjoint(space) && !Contains(m, addr)
    ensures Find(RemoveModule(space, m).0, addr) == Find(space, addr)
  {
    var s := RemoveModule(space, m).0;
    RemoveKeepsDisjoint(space, m);
    match Find(space, addr)
    case None =>
    case Some(x) =>
      FindUnique(s, x, addr);
  }
}
