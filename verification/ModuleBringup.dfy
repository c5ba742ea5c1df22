/** Bring-up and shutdown of the charger modules (the kernel 6.12 branch). The linker
    places each section's module entries next to each other in memory; the loader
    walks outwards from a marker entry, calls the init functions of four sections in
    order and undoes them in reverse when one fails. */
module ModuleBringup {
  import opened Kernel

  const CORE_MAGIC := 0x20300000
  const EARLY_MAGIC := 0x20300001
  const NORMAL_MAGIC := 0x20300002
  const LATE_MAGIC := 0x20300003

  /** One module entry; an address is an index into the memory of entries. */
  datatype Entry = Entry(magic: nat, hasInit: bool, hasExit: bool)

  type Addr = nat

  datatype Event = Init(addr: Addr) | InitFailed(addr: Addr) | Exit(addr: Addr)

  // ------------------------------------------------- a flat list of modules

  predicate InMemory(mem: seq<Entry>, order: seq<Addr>)
  {
    forall k :: 0 <= k < |order| ==> order[k] < |mem|
  }

  /** The trace after calling every init function in order. */
  function InitAll(mem: seq<Entry>, t: seq<Event>, order: seq<Addr>): seq<Event>
    requires InMemory(mem, order)
    decreases order
  {
    if order == [] then t
    else
      var n := |order| - 1;
      var t1 := InitAll(mem, t, order[..n]);
      if mem[order[n]].hasInit then t1 + [Init(order[n])] else t1
  }

  /** The trace after calling every exit function in reverse order. */
  function ExitAll(mem: seq<Entry>, t: seq<Event>, order: seq<Addr>): seq<Event>
    requires InMemory(mem, order)
    decreases order
  {
    if order == [] then t
    else
      var n := |order| - 1;
      ExitAll(mem, if mem[order[n]].hasExit then t + [Exit(order[n])] else t, order[..n])
  }

  /** The module at this address has an init function that fails. */
  predicate Fails(mem: seq<Entry>, initRc: Addr -> int, a: Addr)
    requires a < |mem|
  {
    mem[a].hasInit && initRc(a) < 0
  }

  /** The position of the first module whose init fails, or the end of the list. */
  function FailAt(mem: seq<Entry>, order: seq<Addr>, initRc: Addr -> int): (k: nat)
    requires InMemory(mem, order)
    ensures k <= |order|
    ensures forall j :: 0 <= j < k ==> !Fails(mem, initRc, order[j])
    ensures k < |order| ==> Fails(mem, initRc, order[k])
  {
    if order == [] || Fails(mem, initRc, order[0]) then 0 else 1 + FailAt(mem, order[1..], initRc)
  }

  datatype Outcome = Outcome(trace: seq<Event>, rc: int)

  /** Bring-up of a flat list: init in order, and after the first failure exit what
      came before it in reverse. */
  function FlatBringup(mem: seq<Entry>, t: seq<Event>, order: seq<Addr>, initRc: Addr -> int): Outcome
    requires InMemory(mem, order)
  {
    var k := FailAt(mem, order, initRc);
    var t1 := InitAll(mem, t, order[..k]);
    if k == |order| then Outcome(t1, 0)
    else Outcome(ExitAll(mem, t1 + [InitFailed(order[k])], order[..k]), initRc(order[k]))
  }

  lemma {:induction false} InitAllConcat(mem: seq<Entry>, t: seq<Event>, a: seq<Addr>, b: seq<Addr>)
    requires InMemory(mem, a) && InMemory(mem, b)
    ensures InMemory(mem, a + b)
    ensures InitAll(mem, t, a + b) == InitAll(mem, InitAll(mem, t, a), b)
    decreases b
  {
    if b == [] {
      assert a + b == a;
    } else {
      var n := |b| - 1;
      assert (a + b)[..|a| + n] == a + b[..n];
      InitAllConcat(mem, t, a, b[..n]);
    }
  }

  lemma {:induction false} ExitAllConcat(mem: seq<Entry>, t: seq<Event>, a: seq<Addr>, b: seq<Addr>)
    requires InMemory(mem, a) && InMemory(mem, b)
    ensures InMemory(mem, a + b)
    ensures ExitAll(mem, t, a + b) == ExitAll(mem, ExitAll(mem, t, b), a)
    decreases b
  {
    if b == [] {
      assert a + b == a;
    } else {
      var n := |b| - 1;
      assert (a + b)[..|a| + n] == a + b[..n];
      ExitAllConcat(mem, if mem[b[n]].hasExit then t + [Exit(b[n])] else t, a, b[..n]);
    }
  }

  lemma FailAtIs(mem: seq<Entry>, order: seq<Addr>, initRc: Addr -> int, k: nat)
    requires InMemory(mem, order) && k <= |order|
    requires forall j :: 0 <= j < k ==> !Fails(mem, initRc, order[j])
    requires k < |order| ==> Fails(mem, initRc, order[k])
    ensures FailAt(mem, order, initRc) == k
  {
  }

  /** Bringing up `a` and then `b`, and exiting `a` when `b` fails, is bringing up `a + b`. */
  lemma BringupConcat(mem: seq<Entry>, t: seq<Event>, a: seq<Addr>, b: seq<Addr>, initRc: Addr -> int)
    requires InMemory(mem, a) && InMemory(mem, b)
    ensures InMemory(mem, a + b)
    ensures var first := FlatBringup(mem, t, a, initRc);
            var second := FlatBringup(mem, first.trace, b, initRc);
            FlatBringup(mem, t, a + b, initRc) ==
            if first.rc < 0 then first
            else if second.rc < 0 then Outcome(ExitAll(mem, second.trace, a), second.rc)
            else second
  {
    if FailAt(mem, a, initRc) < |a| {
      FailsInFirst(mem, t, a, b, initRc);
    } else {
      FailsInSecond(mem, t, a, b, initRc);
    }
  }

  lemma FailsInFirst(mem: seq<Entry>, t: seq<Event>, a: seq<Addr>, b: seq<Addr>, initRc: Addr -> int)
    requires InMemory(mem, a) && InMemory(mem, b) && FailAt(mem, a, initRc) < |a|
    ensures InMemory(mem, a + b)
    ensures FlatBringup(mem, t, a + b, initRc) == FlatBringup(mem, t, a, initRc)
  {
    var j := FailAt(mem, a, initRc);
    assert (a + b)[..j] == a[..j];
    FailAtIs(mem, a + b, initRc, j);
  }

  lemma FailsInSecond(mem: seq<Entry>, t: seq<Event>, a: seq<Addr>, b: seq<Addr>, initRc: Addr -> int)
    requires InMemory(mem, a) && InMemory(mem, b) && FailAt(mem, a, initRc) == |a|
    ensures InMemory(mem, a + b)
    ensures var first := FlatBringup(mem, t, a, initRc);
            var second := FlatBringup(mem, first.trace, b, initRc);
            FlatBringup(mem, t, a + b, initRc) ==
            if second.rc < 0 then Outcome(ExitAll(mem, second.trace, a), second.rc) else second
  {
    var k := FailAt(mem, b, initRc);
    assert a[..|a|] == a;
    assert (a + b)[..|a| + k] == a + b[..k];
    FailAtConcat(mem, a, b, initRc);
    InitAllConcat(mem, t, a, b[..k]);
    if k < |b| {
      ExitAllConcat(mem, InitAll(mem, t, a + b[..k]) + [InitFailed(b[k])], a, b[..k]);
    }
  }

  lemma FailAtConcat(mem: seq<Entry>, a: seq<Addr>, b: seq<Addr>, initRc: Addr -> int)
    requires InMemory(mem, a) && InMemory(mem, b) && FailAt(mem, a, initRc) == |a|
    ensures InMemory(mem, a + b) && FailAt(mem, a + b, initRc) == |a| + FailAt(mem, b, initRc)
  {
    FailAtIs(mem, a + b, initRc, |a| + FailAt(mem, b, initRc));
  }

  // ----------------------------------------------------- sections in memory

  /** The consecutive addresses from `lo` up to `hi`. */
  function Block(lo: nat, hi: nat): (b: seq<Addr>)
    requires lo <= hi
    ensures |b| == hi - lo && forall k :: 0 <= k < |b| ==> b[k] == lo + k
  {
    seq(hi - lo, k requires 0 <= k < hi - lo => lo + k)
  }

  /** Walking down while the entry below still carries the magic. */
  function First(mem: seq<Entry>, magic: nat, p: nat): (lo: nat)
    requires p < |mem| && mem[p].magic == magic
    ensures lo <= p && (forall i :: lo <= i <= p ==> mem[i].magic == magic)
    ensures lo == 0 || mem[lo - 1].magic != magic
  {
    if p == 0 || mem[p - 1].magic != magic then p else First(mem, magic, p - 1)
  }

  /** Walking up while the entry above still carries the magic. */
  function Last(mem: seq<Entry>, magic: nat, p: nat): (hi: nat)
    requires p < |mem| && mem[p].magic == magic
    ensures p <= hi < |mem| && (forall i :: p <= i <= hi ==> mem[i].magic == magic)
    ensures hi == |mem| - 1 || mem[hi + 1].magic != magic
    decreases |mem| - p
  {
    if p == |mem| - 1 || mem[p + 1].magic != magic then p else Last(mem, magic, p + 1)
  }

  predicate HasSection(mem: seq<Entry>, marker: map<nat, Addr>, magic: nat)
  {
    magic in marker && marker[magic] < |mem| && mem[marker[magic]].magic == magic
  }

  /** The addresses of a section: the unbroken run of its magic around its marker. */
  function Section(mem: seq<Entry>, marker: map<nat, Addr>, magic: nat): (b: seq<Addr>)
    ensures InMemory(mem, b)
    ensures forall k :: 0 <= k < |b| ==> mem[b[k]].magic == magic
  {
    if !HasSection(mem, marker, magic) then []
    else Block(First(mem, magic, marker[magic]), Last(mem, magic, marker[magic]) + 1)
  }

  /** All modules, in bring-up order. */
  function AllModules(mem: seq<Entry>, marker: map<nat, Addr>): (order: seq<Addr>)
    ensures InMemory(mem, order)
  {
    Section(mem, marker, CORE_MAGIC) + Section(mem, marker, EARLY_MAGIC)
    + Section(mem, marker, NORMAL_MAGIC) + Section(mem, marker, LATE_MAGIC)
  }

  predicate IsSection(magic: nat)
  {
    magic == CORE_MAGIC || magic == EARLY_MAGIC || magic == NORMAL_MAGIC || magic == LATE_MAGIC
  }

  /** The words around the table belong to no section, so every walk ends inside. */
  predicate Walled(mem: seq<Entry>)
  {
    |mem| >= 1 && !IsSection(mem[0].magic) && !IsSection(mem[|mem| - 1].magic)
  }

  /** The `n` entries from `lo` on carry the magic, and the next one does not. */
  ghost predicate Carry(mem: seq<Entry>, magic: nat, lo: nat, n: nat)
  {
    && lo + n < |mem|
    && (forall a :: lo <= a < lo + n ==> mem[a].magic == magic)
    && mem[lo + n].magic != magic
  }

  /** A section is a block strictly inside memory, bordered by other entries. */
  lemma SectionBounds(mem: seq<Entry>, marker: map<nat, Addr>, magic: nat) returns (lo: nat, n: nat)
    requires Walled(mem) && IsSection(magic) && HasSection(mem, marker, magic)
    ensures lo == First(mem, magic, marker[magic]) && lo + n - 1 == Last(mem, magic, marker[magic])
    ensures Section(mem, marker, magic) == Block(lo, lo + n)
    ensures 0 < lo && mem[lo - 1].magic != magic && Carry(mem, magic, lo, n)
  {
    lo := First(mem, magic, marker[magic]);
    n := Last(mem, magic, marker[magic]) + 1 - lo;
  }

  lemma InitAllBlock(mem: seq<Entry>, t: seq<Event>, lo: nat, i: nat)
    requires lo + i < |mem|
    ensures InitAll(mem, t, Block(lo, lo + i + 1)) ==
            InitAll(mem, t, Block(lo, lo + i)) + (if mem[lo + i].hasInit then [Init(lo + i)] else [])
  {
    assert Block(lo, lo + i + 1)[..i] == Block(lo, lo + i);
  }

  lemma FailAtBlock(mem: seq<Entry>, lo: nat, n: nat, initRc: Addr -> int, i: nat)
    requires lo + n <= |mem| && i <= n
    requires forall a :: lo <= a < lo + i ==> !Fails(mem, initRc, a)
    requires i < n ==> Fails(mem, initRc, lo + i)
    ensures FailAt(mem, Block(lo, lo + n), initRc) == i
  {
    FailAtIs(mem, Block(lo, lo + n), initRc, i);
  }

  lemma ExitAllBlock(mem: seq<Entry>, t: seq<Event>, lo: nat, last: nat)
    requires lo <= last < |mem|
    ensures ExitAll(mem, t, Block(lo, last + 1)) ==
            ExitAll(mem, if mem[last].hasExit then t + [Exit(last)] else t, Block(lo, last))
  {
    assert Block(lo, last + 1)[..last - lo] == Block(lo, last);
  }

  // ------------------------------------------- which modules, in which order

  /** The entry belongs to one of the four sections: its magic is a section's, and an
      unbroken run of that magic joins it to the section's marker. */
  ghost predicate Joined(mem: seq<Entry>, marker: map<nat, Addr>, a: Addr)
  {
    && a < |mem| && 0x20300000 <= mem[a].magic <= 0x20300003
    && mem[a].magic in marker && marker[mem[a].magic] < |mem|
    && var m := mem[a].magic;
       forall b: Addr :: a <= b <= marker[m] || marker[m] <= b <= a ==> mem[b].magic == m
  }

  /** Core before early before normal before late, and by address within a section. */
  predicate Before(mem: seq<Entry>, a: Addr, b: Addr)
    requires a < |mem| && b < |mem|
  {
    mem[a].magic < mem[b].magic || (mem[a].magic == mem[b].magic && a < b)
  }

  /** The trace and return code of a bring-up, said of memory and markers alone. Without
      a failure it is the init of every joined module that has one. After a failure it is
      the inits before the failing module and the exits of the same modules, and the code
      is the failing module's own. Inits come in order, exits in reverse. */
  ghost predicate BroughtUp(mem: seq<Entry>, marker: map<nat, Addr>, initRc: Addr -> int, t: seq<Event>, rc: int)
  {
    && InitsOrdered(mem, t) && ExitsReversed(mem, t)
    && if rc >= 0 then
         && rc == 0
         && (forall a: Addr :: Init(a) in t <==> Joined(mem, marker, a) && mem[a].hasInit)
         && (forall a: Addr :: Init(a) in t ==> initRc(a) >= 0)
         && (forall a: Addr :: Exit(a) !in t)
       else exists f: Addr :: FailedAt(mem, marker, initRc, t, rc, f)
  }

  ghost predicate FailedAt(
    mem: seq<Entry>, marker: map<nat, Addr>, initRc: Addr -> int, t: seq<Event>, rc: int, f: Addr)
  {
    && Joined(mem, marker, f) && mem[f].hasInit && rc == initRc(f) && InitFailed(f) in t
    && (forall a: Addr :: Init(a) in t <==> Joined(mem, marker, a) && mem[a].hasInit && Before(mem, a, f))
    && (forall a: Addr :: Init(a) in t ==> initRc(a) >= 0)
    && (forall a: Addr :: Exit(a) in t <==> Joined(mem, marker, a) && mem[a].hasExit && Before(mem, a, f))
  }

  /** A shutdown adds the exit of every joined module that has one, in reverse order. */
  ghost predicate TornDown(mem: seq<Entry>, marker: map<nat, Addr>, before: seq<Event>, t: seq<Event>)
  {
    && before <= t
    && (forall a: Addr :: Exit(a) in t[|before|..] <==> Joined(mem, marker, a) && mem[a].hasExit)
    && (forall i :: |before| <= i < |t| ==> t[i].Exit?)
    && ExitsReversed(mem, t[|before|..])
  }

  ghost predicate InitsOrdered(mem: seq<Entry>, t: seq<Event>)
  {
    && (forall i :: 0 <= i < |t| && t[i].Init? ==> t[i].addr < |mem|)
    && forall i, j :: 0 <= i < j < |t| && t[i].Init? && t[j].Init? ==> Before(mem, t[i].addr, t[j].addr)
  }

  ghost predicate ExitsReversed(mem: seq<Entry>, t: seq<Event>)
  {
    && (forall i :: 0 <= i < |t| && t[i].Exit? ==> t[i].addr < |mem|)
    && forall i, j :: 0 <= i < j < |t| && t[i].Exit? && t[j].Exit? ==> Before(mem, t[j].addr, t[i].addr)
  }

  ghost predicate Ascending(mem: seq<Entry>, order: seq<Addr>)
    requires InMemory(mem, order)
  {
    forall i, j :: 0 <= i < j < |order| ==> Before(mem, order[i], order[j])
  }

  lemma SectionMembers(mem: seq<Entry>, marker: map<nat, Addr>, m: nat, a: Addr)
    requires 0x20300000 <= m <= 0x20300003
    ensures a in Section(mem, marker, m) <==> Joined(mem, marker, a) && mem[a].magic == m
  {
    if Joined(mem, marker, a) && mem[a].magic == m {
      assert HasSection(mem, marker, m) by { assert mem[marker[m]].magic == m; }
      var lo, hi := First(mem, m, marker[m]), Last(mem, m, marker[m]);
      assert lo <= a <= hi;
      assert Section(mem, marker, m)[a - lo] == a;
    }
  }

  lemma SectionAscends(mem: seq<Entry>, marker: map<nat, Addr>, m: nat)
    ensures Ascending(mem, Section(mem, marker, m))
  {
  }

  /** Every entry of the list has a magic of at most `m`. */
  predicate UpTo(mem: seq<Entry>, order: seq<Addr>, m: nat)
    requires InMemory(mem, order)
  {
    forall i :: 0 <= i < |order| ==> mem[order[i]].magic <= m
  }

  lemma AscendingConcat(mem: seq<Entry>, marker: map<nat, Addr>, a: seq<Addr>, m: nat)
    requires InMemory(mem, a) && Ascending(mem, a) && UpTo(mem, a, m)
    ensures var both := a + Section(mem, marker, m + 1);
            InMemory(mem, both) && Ascending(mem, both) && UpTo(mem, both, m + 1)
  {
    SectionAscends(mem, marker, m + 1);
  }

  lemma AllModulesAscend(mem: seq<Entry>, marker: map<nat, Addr>)
    ensures Ascending(mem, AllModules(mem, marker))
  {
    var core, early := Section(mem, marker, CORE_MAGIC), Section(mem, marker, EARLY_MAGIC);
    SectionAscends(mem, marker, CORE_MAGIC);
    AscendingConcat(mem, marker, core, CORE_MAGIC);
    AscendingConcat(mem, marker, core + early, EARLY_MAGIC);
    AscendingConcat(mem, marker, core + early + Section(mem, marker, NORMAL_MAGIC), NORMAL_MAGIC);
  }

  lemma AllModulesMembers(mem: seq<Entry>, marker: map<nat, Addr>, a: Addr)
    ensures a in AllModules(mem, marker) <==> Joined(mem, marker, a)
  {
    SectionMembers(mem, marker, CORE_MAGIC, a);
    SectionMembers(mem, marker, EARLY_MAGIC, a);
    SectionMembers(mem, marker, NORMAL_MAGIC, a);
    SectionMembers(mem, marker, LATE_MAGIC, a);
    if Joined(mem, marker, a) {
      var m := mem[a].magic;
      assert m == 0x20300000 || m == 0x20300001 || m == 0x20300002 || m == 0x20300003;
    }
  }

  /** The modules before position `k` of an ascending list are those before its k-th. */
  lemma PrefixMembers(mem: seq<Entry>, order: seq<Addr>, k: nat, a: Addr)
    requires InMemory(mem, order) && Ascending(mem, order) && k < |order|
    ensures a in order[..k] <==> a in order && Before(mem, a, order[k])
  {
    if a in order[..k] {
      var i :| 0 <= i < k && order[..k][i] == a;
      assert order[i] == a;
    }
    if a in order && Before(mem, a, order[k]) {
      var i :| 0 <= i < |order| && order[i] == a;
      assert i < k;
      assert order[..k][i] == a;
    }
  }

  lemma {:induction false} InitAllEvents(mem: seq<Entry>, t: seq<Event>, order: seq<Addr>, e: Event)
    requires InMemory(mem, order)
    ensures e in InitAll(mem, t, order) <==> e in t || (e.Init? && e.addr in order && mem[e.addr].hasInit)
    decreases order
  {
    if order != [] {
      var n := |order| - 1;
      assert order == order[..n] + [order[n]];
      InitAllEvents(mem, t, order[..n], e);
    }
  }

  lemma {:induction false} ExitAllEvents(mem: seq<Entry>, t: seq<Event>, order: seq<Addr>, e: Event)
    requires InMemory(mem, order)
    ensures e in ExitAll(mem, t, order) <==> e in t || (e.Exit? && e.addr in order && mem[e.addr].hasExit)
    decreases order
  {
    if order != [] {
      var n := |order| - 1;
      assert order == order[..n] + [order[n]];
      ExitAllEvents(mem, if mem[order[n]].hasExit then t + [Exit(order[n])] else t, order[..n], e);
    }
  }

  lemma {:induction false} InitAllOrdered(mem: seq<Entry>, order: seq<Addr>)
    requires InMemory(mem, order) && Ascending(mem, order)
    ensures InitsOrdered(mem, InitAll(mem, [], order))
    ensures forall i :: 0 <= i < |InitAll(mem, [], order)| ==> InitAll(mem, [], order)[i].Init?
    decreases order
  {
    if order != [] {
      var n := |order| - 1;
      var t := InitAll(mem, [], order[..n]);
      InitAllOrdered(mem, order[..n]);
      forall i | 0 <= i < |t| ensures t[i].addr < |mem| && Before(mem, t[i].addr, order[n]) {
        InitAllEvents(mem, [], order[..n], t[i]);
        assert t[i].addr in order[..n];
        PrefixMembers(mem, order, n, t[i].addr);
      }
    }
  }

  /** Exits are appended in reverse order and touch nothing before them. */
  lemma {:induction false} ExitAllReversed(mem: seq<Entry>, t: seq<Event>, order: seq<Addr>)
    requires InMemory(mem, order) && Ascending(mem, order)
    ensures var t' := ExitAll(mem, t, order);
            t <= t' && forall i :: |t| <= i < |t'| ==> t'[i].Exit?
    ensures ExitsReversed(mem, ExitAll(mem, t, order)[|t|..])
    decreases order
  {
    var t' := ExitAll(mem, t, order);
    if order == [] {
      assert t'[|t|..] == [];
    } else {
      var n := |order| - 1;
      var x, pre := order[n], order[..n];
      var t1 := if mem[x].hasExit then t + [Exit(x)] else t;
      ExitAllReversed(mem, t1, pre);
      assert t <= t1 <= t';
      forall i | |t1| <= i < |t'| ensures t'[i].addr < |mem| && Before(mem, t'[i].addr, x) {
        ExitsAreOf(mem, t1, pre, i);
        PrefixMembers(mem, order, n, t'[i].addr);
      }
      ExitTail(mem, t, t1, t', x);
    }
  }

  lemma ExitTail(mem: seq<Entry>, t: seq<Event>, t1: seq<Event>, t': seq<Event>, x: Addr)
    requires x < |mem| && t <= t1 <= t' && (t1 == t || t1 == t + [Exit(x)])
    requires ExitsReversed(mem, t'[|t1|..])
    requires forall i :: |t1| <= i < |t'| ==> t'[i].Exit? && t'[i].addr < |mem| && Before(mem, t'[i].addr, x)
    ensures ExitsReversed(mem, t'[|t|..])
    ensures forall i :: |t| <= i < |t'| ==> t'[i].Exit?
  {
    if t1 != t {
      assert t'[|t|] == Exit(x);
      assert t'[|t|..] == [Exit(x)] + t'[|t1|..];
    }
  }

  /** An event that `ExitAll` appended is the exit of a module of the list. */
  lemma {:induction false} ExitsAreOf(mem: seq<Entry>, t: seq<Event>, order: seq<Addr>, i: nat)
    requires InMemory(mem, order) && t <= ExitAll(mem, t, order) && |t| <= i < |ExitAll(mem, t, order)|
    ensures ExitAll(mem, t, order)[i].Exit? && ExitAll(mem, t, order)[i].addr in order
    decreases order
  {
    if order != [] {
      var n := |order| - 1;
      var x, pre := order[n], order[..n];
      var t1 := if mem[x].hasExit then t + [Exit(x)] else t;
      ExitAllExtends(mem, t1, pre);
      if i < |t1| {
        assert ExitAll(mem, t, order)[i] == t1[i] == Exit(x);
      } else {
        ExitsAreOf(mem, t1, pre, i);
      }
    }
  }

  lemma {:induction false} ExitAllExtends(mem: seq<Entry>, t: seq<Event>, order: seq<Addr>)
    requires InMemory(mem, order)
    ensures t <= ExitAll(mem, t, order)
    decreases order
  {
    if order != [] {
      var n := |order| - 1;
      ExitAllExtends(mem, if mem[order[n]].hasExit then t + [Exit(order[n])] else t, order[..n]);
    }
  }

  lemma CleanBringupIsComplete(mem: seq<Entry>, marker: map<nat, Addr>, initRc: Addr -> int)
    requires FailAt(mem, AllModules(mem, marker), initRc) == |AllModules(mem, marker)|
    ensures var o := FlatBringup(mem, [], AllModules(mem, marker), initRc);
            BroughtUp(mem, marker, initRc, o.trace, o.rc)
  {
    var order := AllModules(mem, marker);
    var t := InitAll(mem, [], order);
    assert order[..|order|] == order;
    AllModulesAscend(mem, marker);
    InitAllOrdered(mem, order);
    forall a: Addr
      ensures Init(a) in t <==> Joined(mem, marker, a) && mem[a].hasInit
      ensures Init(a) in t ==> initRc(a) >= 0
      ensures Exit(a) !in t
    {
      CleanEvents(mem, marker, initRc, a);
    }
  }

  lemma CleanEvents(mem: seq<Entry>, marker: map<nat, Addr>, initRc: Addr -> int, a: Addr)
    requires FailAt(mem, AllModules(mem, marker), initRc) == |AllModules(mem, marker)|
    ensures var t := InitAll(mem, [], AllModules(mem, marker));
            && (Init(a) in t <==> Joined(mem, marker, a) && mem[a].hasInit)
            && (Init(a) in t ==> initRc(a) >= 0)
            && Exit(a) !in t
  {
    var order := AllModules(mem, marker);
    AllModulesMembers(mem, marker, a);
    InitAllEvents(mem, [], order, Init(a));
    InitAllEvents(mem, [], order, Exit(a));
    if a in order && mem[a].hasInit {
      var k :| 0 <= k < |order| && order[k] == a;
      assert !Fails(mem, initRc, order[k]);
    }
  }

  lemma FailedBringupIsExact(mem: seq<Entry>, marker: map<nat, Addr>, initRc: Addr -> int)
    requires FailAt(mem, AllModules(mem, marker), initRc) < |AllModules(mem, marker)|
    ensures var o := FlatBringup(mem, [], AllModules(mem, marker), initRc);
            BroughtUp(mem, marker, initRc, o.trace, o.rc)
  {
    var order := AllModules(mem, marker);
    var k := FailAt(mem, order, initRc);
    var pre, f := order[..k], order[k];
    var t0 := InitAll(mem, [], pre);
    var t1 := t0 + [InitFailed(f)];
    var t := ExitAll(mem, t1, pre);
    AllModulesAscend(mem, marker);
    InitAllOrdered(mem, pre);
    ExitAllReversed(mem, t1, pre);
    TraceOfFailure(mem, t0, t1, t, f);
    AllModulesMembers(mem, marker, f);
    ExitAllEvents(mem, t1, pre, InitFailed(f));
    forall a: Addr
      ensures Init(a) in t <==> Joined(mem, marker, a) && mem[a].hasInit && Before(mem, a, f)
      ensures Init(a) in t ==> initRc(a) >= 0
      ensures Exit(a) in t <==> Joined(mem, marker, a) && mem[a].hasExit && Before(mem, a, f)
    {
      FailureEvents(mem, marker, initRc, a);
    }
    assert FailedAt(mem, marker, initRc, t, initRc(f), f);
  }

  lemma TraceOfFailure(mem: seq<Entry>, t0: seq<Event>, t1: seq<Event>, t: seq<Event>, f: Addr)
    requires t1 == t0 + [InitFailed(f)] && t1 <= t
    requires InitsOrdered(mem, t0) && forall i :: 0 <= i < |t0| ==> t0[i].Init?
    requires ExitsReversed(mem, t[|t1|..]) && forall i :: |t1| <= i < |t| ==> t[i].Exit?
    ensures InitsOrdered(mem, t) && ExitsReversed(mem, t)
  {
    forall i | 0 <= i < |t| ensures t[i].Init? ==> i < |t0| && t[i] == t0[i] {
    }
    forall i | 0 <= i < |t| && t[i].Exit? ensures |t1| <= i && t[i] == t[|t1|..][i - |t1|] {
    }
  }

  lemma FailureEvents(mem: seq<Entry>, marker: map<nat, Addr>, initRc: Addr -> int, a: Addr)
    requires FailAt(mem, AllModules(mem, marker), initRc) < |AllModules(mem, marker)|
    ensures var order := AllModules(mem, marker);
            var k := FailAt(mem, order, initRc);
            var t := FlatBringup(mem, [], order, initRc).trace;
            && (Init(a) in t <==> Joined(mem, marker, a) && mem[a].hasInit && Before(mem, a, order[k]))
            && (Init(a) in t ==> initRc(a) >= 0)
            && (Exit(a) in t <==> Joined(mem, marker, a) && mem[a].hasExit && Before(mem, a, order[k]))
  {
    var order := AllModules(mem, marker);
    var k := FailAt(mem, order, initRc);
    var pre := order[..k];
    var t1 := InitAll(mem, [], pre) + [InitFailed(order[k])];
    AllModulesAscend(mem, marker);
    AllModulesMembers(mem, marker, a);
    PrefixMembers(mem, order, k, a);
    InitAllEvents(mem, [], pre, Init(a));
    InitAllEvents(mem, [], pre, Exit(a));
    ExitAllEvents(mem, t1, pre, Init(a));
    ExitAllEvents(mem, t1, pre, Exit(a));
    if a in pre && mem[a].hasInit {
      var j :| 0 <= j < k && pre[j] == a;
      assert !Fails(mem, initRc, order[j]);
    }
  }

  /** Main theorem: what the flat bring-up of all sections does, in terms of memory and
      markers alone. */
  lemma BringupIsComplete(mem: seq<Entry>, marker: map<nat, Addr>, initRc: Addr -> int)
    ensures var o := FlatBringup(mem, [], AllModules(mem, marker), initRc);
            BroughtUp(mem, marker, initRc, o.trace, o.rc)
  {
    if FailAt(mem, AllModules(mem, marker), initRc) < |AllModules(mem, marker)| {
      FailedBringupIsExact(mem, marker, initRc);
    } else {
      CleanBringupIsComplete(mem, marker, initRc);
    }
  }

  lemma ShutdownIsComplete(mem: seq<Entry>, marker: map<nat, Addr>, before: seq<Event>)
    ensures TornDown(mem, marker, before, ExitAll(mem, before, AllModules(mem, marker)))
  {
    var order := AllModules(mem, marker);
    var t := ExitAll(mem, before, order);
    AllModulesAscend(mem, marker);
    ExitAllReversed(mem, before, order);
    forall a: Addr ensures Exit(a) in t[|before|..] <==> Joined(mem, marker, a) && mem[a].hasExit {
      AllModulesMembers(mem, marker, a);
      ExitTailEvents(mem, before, order, a);
    }
  }

  lemma {:induction false} ExitTailEvents(mem: seq<Entry>, t: seq<Event>, order: seq<Addr>, a: Addr)
    requires InMemory(mem, order) && t <= ExitAll(mem, t, order)
    ensures Exit(a) in ExitAll(mem, t, order)[|t|..] <==> a in order && mem[a].hasExit
    decreases order
  {
    var t' := ExitAll(mem, t, order);
    if order == [] {
      assert t'[|t|..] == [];
    } else {
      var n := |order| - 1;
      var x, pre := order[n], order[..n];
      assert order == pre + [x];
      var t1 := if mem[x].hasExit then t + [Exit(x)] else t;
      ExitAllExtends(mem, t1, pre);
      ExitTailEvents(mem, t1, pre, a);
      if mem[x].hasExit {
        assert t'[|t|] == Exit(x);
        assert t'[|t|..] == [Exit(x)] + t'[|t1|..];
      }
    }
  }

  // --------------------------------------------------------------- the loader

  class Loader {
    const mem: seq<Entry>
    const marker: map<nat, Addr>
    const initRc: Addr -> int
    var trace: seq<Event>

    ghost predicate Valid()
    {
      Walled(mem) && forall m :: m in marker ==> marker[m] < |mem|
    }

    constructor (mem: seq<Entry>, marker: map<nat, Addr>, initRc: Addr -> int)
      requires Walled(mem) && forall m :: m in marker ==> marker[m] < |mem|
      ensures Valid() && this.mem == mem && this.marker == marker && this.initRc == initRc && trace == []
    {
      this.mem := mem;
      this.marker := marker;
      this.initRc := initRc;
      trace := [];
    }

    method FindFirst(magic: nat) returns (start: Option<Addr>)
      requires Valid() && IsSection(magic)
      ensures start == if HasSection(mem, marker, magic) then Some(First(mem, magic, marker[magic])) else None
    {
      if magic !in marker || mem[marker[magic]].magic != magic {
        return None;
      }
      var addr := marker[magic];
      while mem[addr - 1].magic == magic
        invariant 0 < addr < |mem| && mem[addr].magic == magic
        invariant First(mem, magic, addr) == First(mem, magic, marker[magic])
        decreases addr
      {
        addr := addr - 1;
      }
      return Some(addr);
    }

    method FindLast(magic: nat) returns (start: Option<Addr>)
      requires Valid() && IsSection(magic)
      ensures start == if HasSection(mem, marker, magic) then Some(Last(mem, magic, marker[magic])) else None
    {
      if magic !in marker || mem[marker[magic]].magic != magic {
        return None;
      }
      var addr := marker[magic];
      while mem[addr + 1].magic == magic
        invariant 0 <= addr < |mem| - 1 && mem[addr].magic == magic
        invariant Last(mem, magic, addr) == Last(mem, magic, marker[magic])
        decreases |mem| - addr
      {
        addr := addr + 1;
      }
      return Some(addr);
    }

    method SectionInit(magic: nat) returns (rc: int)
      requires Valid() && IsSection(magic)
      modifies this
      ensures Outcome(trace, rc) == FlatBringup(mem, old(trace), Section(mem, marker, magic), initRc)
    {
      var found := FindFirst(magic);
      if found.None? {
        return 0;
      }
      ghost var lo, n := SectionBounds(mem, marker, magic);
      rc := BlockInit(magic, found.value, n);
    }

    /** The body of `SectionInit` for a section of `n` modules from `start` on. */
    method BlockInit(magic: nat, start: Addr, ghost n: nat) returns (rc: int)
      requires Carry(mem, magic, start, n)
      modifies this
      ensures Outcome(trace, rc) == FlatBringup(mem, old(trace), Block(start, start + n), initRc)
    {
      var i := InitForward(magic, start, n);
      assert Block(start, start + n)[..i] == Block(start, start + i);
      if mem[start + i].magic != magic {
        return 0;
      }
      rc := initRc(start + i);
      trace := trace + [InitFailed(start + i)];
      UndoSection(start, i);
    }

    /** The forward loop: stops at the end of the section or at the first failing init,
        and returns how many modules it passed. */
    method InitForward(magic: nat, start: Addr, ghost n: nat) returns (i: nat)
      requires Carry(mem, magic, start, n)
      modifies this
      ensures i == FailAt(mem, Block(start, start + n), initRc)
      ensures trace == InitAll(mem, old(trace), Block(start, start + i))
    {
      i := 0;
      while mem[start + i].magic == magic && !(mem[start + i].hasInit && initRc(start + i) < 0)
        invariant 0 <= i <= n
        invariant forall a :: start <= a < start + i ==> !Fails(mem, initRc, a)
        invariant trace == InitAll(mem, old(trace), Block(start, start + i))
        decreases n - i
      {
        InitAllBlock(mem, old(trace), start, i);
        if mem[start + i].hasInit {
          trace := trace + [Init(start + i)];
        }
        i := i + 1;
      }
      FailAtBlock(mem, start, n, initRc, i);
    }

    /** The error path of `SectionInit`: exit the `count` modules from `start` on, last first. */
    method UndoSection(start: Addr, count: nat)
      requires start + count <= |mem|
      modifies this
      ensures trace == ExitAll(mem, old(trace), Block(start, start + count))
    {
      ghost var block := Block(start, start + count);
      var i := count;
      assert block[..i] == block;
      while i > 0
        invariant 0 <= i <= count
        invariant ExitAll(mem, trace, block[..i]) == ExitAll(mem, old(trace), block)
      {
        assert block[..i][..i - 1] == block[..i - 1];
        i := i - 1;
        if mem[start + i].hasExit {
          trace := trace + [Exit(start + i)];
        }
      }
    }

    method SectionExit(magic: nat)
      requires Valid() && IsSection(magic)
      modifies this
      ensures trace == ExitAll(mem, old(trace), Section(mem, marker, magic))
    {
      var found := FindLast(magic);
      if found.None? {
        return;
      }
      ghost var lo, n := SectionBounds(mem, marker, magic);
      ExitBackward(magic, found.value, lo);
    }

    /** The backward loop of `SectionExit` over a section that starts at `lo`. */
    method ExitBackward(magic: nat, last: Addr, ghost lo: nat)
      requires 0 < lo <= last < |mem| && mem[lo - 1].magic != magic
      requires forall a :: lo <= a <= last ==> mem[a].magic == magic
      modifies this
      ensures trace == ExitAll(mem, old(trace), Block(lo, last + 1))
    {
      var i := 0;
      while mem[last - i].magic == magic
        invariant 0 <= i <= last + 1 - lo
        invariant ExitAll(mem, trace, Block(lo, last + 1 - i)) == ExitAll(mem, old(trace), Block(lo, last + 1))
        decreases last + 1 - i
      {
        ExitAllBlock(mem, trace, lo, last - i);
        if mem[last - i].hasExit {
          trace := trace + [Exit(last - i)];
        }
        i := i + 1;
      }
    }

    /** The four sections with their chain of rollbacks amount to one flat bring-up. */
    method ModulesInit() returns (rc: int)
      requires Valid()
      modifies this
      ensures Outcome(trace, rc) == FlatBringup(mem, old(trace), AllModules(mem, marker), initRc)
      ensures old(trace) == [] ==> BroughtUp(mem, marker, initRc, trace, rc)
    {
      BringupIsComplete(mem, marker, initRc);
      rc := AllSectionsInit();
    }

    method AllSectionsInit() returns (rc: int)
      requires Valid()
      modifies this
      ensures Outcome(trace, rc) == FlatBringup(mem, old(trace), AllModules(mem, marker), initRc)
    {
      ghost var core := Section(mem, marker, CORE_MAGIC);
      ghost var early := Section(mem, marker, EARLY_MAGIC);
      ghost var normal := Section(mem, marker, NORMAL_MAGIC);
      BringupConcat(mem, trace, core, early, initRc);
      BringupConcat(mem, trace, core + early, normal, initRc);
      BringupConcat(mem, trace, core + early + normal, Section(mem, marker, LATE_MAGIC), initRc);
      rc := SectionInit(CORE_MAGIC);
      if rc < 0 {
        return;
      }
      rc := SectionInit(EARLY_MAGIC);
      if rc < 0 {
        SectionExit(CORE_MAGIC);
        return;
      }
      rc := SectionInit(NORMAL_MAGIC);
      if rc < 0 {
        ExitAllConcat(mem, trace, core, early);
        SectionExit(EARLY_MAGIC);
        SectionExit(CORE_MAGIC);
        return;
      }
      rc := SectionInit(LATE_MAGIC);
      if rc < 0 {
        ExitAllConcat(mem, trace, core + early, normal);
        SectionExit(NORMAL_MAGIC);
        ExitAllConcat(mem, trace, core, early);
        SectionExit(EARLY_MAGIC);
        SectionExit(CORE_MAGIC);
        return;
      }
      return 0;
    }

    method ModulesExit()
      requires Valid()
      modifies this
      ensures trace == ExitAll(mem, old(trace), AllModules(mem, marker))
      ensures TornDown(mem, marker, old(trace), trace)
    {
      ShutdownIsComplete(mem, marker, trace);
      ghost var core := Section(mem, marker, CORE_MAGIC);
      ghost var early := Section(mem, marker, EARLY_MAGIC);
      ghost var normal := Section(mem, marker, NORMAL_MAGIC);
      ExitAllConcat(mem, trace, core + early + normal, Section(mem, marker, LATE_MAGIC));
      SectionExit(LATE_MAGIC);
      ExitAllConcat(mem, trace, core + early, normal);
      SectionExit(NORMAL_MAGIC);
      ExitAllConcat(mem, trace, core, early);
      SectionExit(EARLY_MAGIC);
      SectionExit(CORE_MAGIC);
    }
  }

  // ------------------------------------------------- exits mirror the inits

  /** The modules whose init returned successfully, in order. */
  function Inited(t: seq<Event>): seq<Addr>
  {
    if t == [] then []
    else
      var n := |t| - 1;
      Inited(t[..n]) + if t[n].Init? then [t[n].addr] else []
  }

  /** The modules whose exit was called, in order. */
  function Exited(t: seq<Event>): seq<Addr>
  {
    if t == [] then []
    else
      var n := |t| - 1;
      Exited(t[..n]) + if t[n].Exit? then [t[n].addr] else []
  }

  function Reverse(s: seq<Addr>): seq<Addr>
  {
    if s == [] then [] else [s[|s| - 1]] + Reverse(s[..|s| - 1])
  }

  /** The modules of the list that have an init (or an exit) function, in order. */
  function Having(mem: seq<Entry>, order: seq<Addr>, exit: bool): seq<Addr>
    requires InMemory(mem, order)
  {
    if order == [] then []
    else
      var n := |order| - 1;
      Having(mem, order[..n], exit)
      + if (if exit then mem[order[n]].hasExit else mem[order[n]].hasInit) then [order[n]] else []
  }

  lemma {:induction false} HavingMembers(mem: seq<Entry>, order: seq<Addr>, exit: bool, a: Addr)
    requires InMemory(mem, order)
    ensures a in Having(mem, order, exit) <==> a in order && if exit then mem[a].hasExit else mem[a].hasInit
    decreases order
  {
    if order != [] {
      var n := |order| - 1;
      assert order == order[..n] + [order[n]];
      HavingMembers(mem, order[..n], exit, a);
    }
  }

  lemma {:induction false} ReverseAt(s: seq<Addr>, i: nat)
    requires i < |s|
    ensures |Reverse(s)| == |s| && Reverse(s)[i] == s[|s| - 1 - i]
  {
    if i > 0 {
      ReverseAt(s[..|s| - 1], i - 1);
    } else if |s| > 1 {
      ReverseAt(s[..|s| - 1], 0);
    }
  }

  lemma EventSnoc(t: seq<Event>, e: Event)
    ensures Inited(t + [e]) == Inited(t) + (if e.Init? then [e.addr] else [])
    ensures Exited(t + [e]) == Exited(t) + (if e.Exit? then [e.addr] else [])
  {
    assert (t + [e])[..|t|] == t;
  }

  lemma {:induction false} InitAllInits(mem: seq<Entry>, t: seq<Event>, order: seq<Addr>)
    requires InMemory(mem, order)
    ensures Inited(InitAll(mem, t, order)) == Inited(t) + Having(mem, order, false)
    ensures Exited(InitAll(mem, t, order)) == Exited(t)
    decreases order
  {
    if order != [] {
      var n := |order| - 1;
      InitAllInits(mem, t, order[..n]);
      EventSnoc(InitAll(mem, t, order[..n]), Init(order[n]));
    }
  }

  lemma {:induction false} ExitAllExits(mem: seq<Entry>, t: seq<Event>, order: seq<Addr>)
    requires InMemory(mem, order)
    ensures Exited(ExitAll(mem, t, order)) == Exited(t) + Reverse(Having(mem, order, true))
    ensures Inited(ExitAll(mem, t, order)) == Inited(t)
    decreases order
  {
    if order != [] {
      var n := |order| - 1;
      var pre, x := order[..n], order[n];
      HavingSnoc(mem, order);
      if mem[x].hasExit {
        ExitAllExits(mem, t + [Exit(x)], pre);
        EventSnoc(t, Exit(x));
        ReverseSnoc(Exited(t), Having(mem, pre, true), x);
      } else {
        ExitAllExits(mem, t, pre);
      }
    }
  }

  lemma HavingSnoc(mem: seq<Entry>, order: seq<Addr>)
    requires InMemory(mem, order) && order != []
    ensures var n := |order| - 1;
            var h := Having(mem, order[..n], true);
            Having(mem, order, true) == if mem[order[n]].hasExit then h + [order[n]] else h
  {
  }

  lemma ReverseSnoc(before: seq<Addr>, h: seq<Addr>, x: Addr)
    ensures before + Reverse(h + [x]) == before + [x] + Reverse(h)
  {
    assert (h + [x])[..|h|] == h;
    assert before + ([x] + Reverse(h)) == before + [x] + Reverse(h);
  }

  /** Every module of the list has both an init and an exit function, or neither. */
  predicate Paired(mem: seq<Entry>, order: seq<Addr>)
    requires InMemory(mem, order)
  {
    forall k :: 0 <= k < |order| ==> mem[order[k]].hasInit == mem[order[k]].hasExit
  }

  lemma {:induction false} PairedHaving(mem: seq<Entry>, order: seq<Addr>)
    requires InMemory(mem, order) && Paired(mem, order)
    ensures Having(mem, order, true) == Having(mem, order, false)
    decreases order
  {
    if order != [] {
      PairedHaving(mem, order[..|order| - 1]);
    }
  }

  /** Main theorem: whichever init fails, the exits called are exactly the successful
      inits in reverse; without a failure there are no exits until shutdown, which
      then calls them in exactly reverse init order. */
  lemma RollbackIsExact(mem: seq<Entry>, order: seq<Addr>, initRc: Addr -> int)
    requires InMemory(mem, order) && Paired(mem, order)
    ensures var o := FlatBringup(mem, [], order, initRc);
            && (o.rc < 0 ==> Exited(o.trace) == Reverse(Inited(o.trace)))
            && (o.rc >= 0 ==> Exited(o.trace) == [])
            && (o.rc >= 0 ==> Exited(ExitAll(mem, o.trace, order)) == Reverse(Inited(o.trace)))
  {
    var k := FailAt(mem, order, initRc);
    var pre := order[..k];
    var t := InitAll(mem, [], pre);
    InitAllInits(mem, [], pre);
    PairedHaving(mem, pre);
    assert Inited(t) == Having(mem, pre, true) && Exited(t) == [];
    if k == |order| {
      assert pre == order;
      ExitAllExits(mem, t, order);
      assert Exited(ExitAll(mem, t, order)) == Reverse(Inited(t));
    } else {
      var t1 := t + [InitFailed(order[k])];
      EventSnoc(t, InitFailed(order[k]));
      ExitAllExits(mem, t1, pre);
      assert Exited(t1) == [] && Inited(t1) == Inited(t);
      assert Exited(ExitAll(mem, t1, pre)) == Reverse(Inited(t));
    }
  }

  /** Pairing is also necessary: shutdown mirrors a clean bring-up exactly when every
      entry has both functions or neither. */
  lemma ShutdownMirrorsIff(mem: seq<Entry>, order: seq<Addr>)
    requires InMemory(mem, order)
    ensures var t := InitAll(mem, [], order);
            Exited(ExitAll(mem, t, order)) == Reverse(Inited(t)) <==> Paired(mem, order)
  {
    var t := InitAll(mem, [], order);
    InitAllInits(mem, [], order);
    ExitAllExits(mem, t, order);
    var i, x := Having(mem, order, false), Having(mem, order, true);
    assert Inited(t) == i && Exited(t) == [];
    assert Exited(ExitAll(mem, t, order)) == Reverse(x);
    if Paired(mem, order) {
      PairedHaving(mem, order);
    } else {
      var k :| 0 <= k < |order| && mem[order[k]].hasInit != mem[order[k]].hasExit;
      HavingMembers(mem, order, false, order[k]);
      HavingMembers(mem, order, true, order[k]);
      if Reverse(i) == Reverse(x) {
        ReverseInjective(i, x);
      }
    }
  }

  /** The same for a failed bring-up: its exits mirror its successful inits exactly when
      every entry before the failing one has both functions or neither. */
  lemma RollbackMirrorsIff(mem: seq<Entry>, order: seq<Addr>, initRc: Addr -> int)
    requires InMemory(mem, order) && FailAt(mem, order, initRc) < |order|
    ensures var t := FlatBringup(mem, [], order, initRc).trace;
            Exited(t) == Reverse(Inited(t)) <==> Paired(mem, order[..FailAt(mem, order, initRc)])
  {
    var k := FailAt(mem, order, initRc);
    var pre := order[..k];
    var t := InitAll(mem, [], pre);
    var t1 := t + [InitFailed(order[k])];
    InitAllInits(mem, [], pre);
    EventSnoc(t, InitFailed(order[k]));
    ExitAllExits(mem, t, pre);
    ExitAllExits(mem, t1, pre);
    assert Exited(t) == [] && Exited(t1) == [] && Inited(t1) == Inited(t);
    assert Exited(ExitAll(mem, t1, pre)) == Exited(ExitAll(mem, t, pre));
    ShutdownMirrorsIff(mem, pre);
  }

  lemma ReverseInjective(s: seq<Addr>, t: seq<Addr>)
    requires Reverse(s) == Reverse(t)
    ensures s == t
  {
    if s != [] { ReverseAt(s, 0); }
    if t != [] { ReverseAt(t, 0); }
    forall i | 0 <= i < |s| ensures s[i] == t[i] {
      ReverseAt(s, |s| - 1 - i);
      ReverseAt(t, |s| - 1 - i);
    }
  }

  // ---------------------------------------------------------- each module once

  ghost predicate NoRepeats(s: seq<Addr>)
  {
    forall i, j :: 0 <= i < j < |s| ==> s[i] != s[j]
  }

  lemma NoRepeatsConcat(a: seq<Addr>, b: seq<Addr>)
    requires NoRepeats(a) && NoRepeats(b)
    requires forall i, j :: 0 <= i < |a| && 0 <= j < |b| ==> a[i] != b[j]
    ensures NoRepeats(a + b)
  {
  }

  lemma SectionsOnce(mem: seq<Entry>, marker: map<nat, Addr>, m1: nat, m2: nat)
    requires m1 != m2
    ensures var a, b := Section(mem, marker, m1), Section(mem, marker, m2);
            NoRepeats(a) && forall i, j :: 0 <= i < |a| && 0 <= j < |b| ==> a[i] != b[j]
  {
    var a, b := Section(mem, marker, m1), Section(mem, marker, m2);
    forall i, j | 0 <= i < |a| && 0 <= j < |b| ensures a[i] != b[j] {
      assert mem[a[i]].magic == m1 && mem[b[j]].magic == m2;
    }
  }

  lemma AllModulesOnce(mem: seq<Entry>, marker: map<nat, Addr>)
    ensures NoRepeats(AllModules(mem, marker))
  {
    SectionsOnce(mem, marker, CORE_MAGIC, EARLY_MAGIC);
    SectionsOnce(mem, marker, CORE_MAGIC, NORMAL_MAGIC);
    SectionsOnce(mem, marker, CORE_MAGIC, LATE_MAGIC);
    SectionsOnce(mem, marker, EARLY_MAGIC, NORMAL_MAGIC);
    SectionsOnce(mem, marker, EARLY_MAGIC, LATE_MAGIC);
    SectionsOnce(mem, marker, NORMAL_MAGIC, LATE_MAGIC);
    SectionsOnce(mem, marker, LATE_MAGIC, CORE_MAGIC);
    var core := Section(mem, marker, CORE_MAGIC);
    var early := Section(mem, marker, EARLY_MAGIC);
    var normal := Section(mem, marker, NORMAL_MAGIC);
    NoRepeatsConcat(core, early);
    NoRepeatsConcat(core + early, normal);
    NoRepeatsConcat(core + early + normal, Section(mem, marker, LATE_MAGIC));
  }

  lemma {:induction false} HavingOnce(mem: seq<Entry>, order: seq<Addr>)
    requires InMemory(mem, order) && NoRepeats(order)
    ensures NoRepeats(Having(mem, order, false))
    decreases order
  {
    if order != [] {
      var n := |order| - 1;
      HavingOnce(mem, order[..n]);
      HavingMembers(mem, order[..n], false, order[n]);
    }
  }

  /** No bring-up, failed or not, initialises a module twice. */
  lemma EachModuleOnce(mem: seq<Entry>, marker: map<nat, Addr>, initRc: Addr -> int)
    ensures NoRepeats(Inited(FlatBringup(mem, [], AllModules(mem, marker), initRc).trace))
  {
    var order := AllModules(mem, marker);
    AllModulesOnce(mem, marker);
    var k := FailAt(mem, order, initRc);
    var pre := order[..k];
    var t := InitAll(mem, [], pre);
    InitAllInits(mem, [], pre);
    HavingOnce(mem, pre);
    if k < |order| {
      EventSnoc(t, InitFailed(order[k]));
      ExitAllExits(mem, t + [InitFailed(order[k])], pre);
    }
  }
}
