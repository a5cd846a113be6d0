// Reference counts of domains (open files) on the client side: who holds a
// domain, when it is freed, and which calls break the count.
// Sources: rest_vol_file.c, rest_vol_group.c, rest_vol_datatype.c, rest_vol_attr.c and
// the swap to an external domain in rest_vol.c.

module DomainRefs {

  // The heap of the connector. `pathless` are the groups created without a name: their path is a
  // null pointer. A file object is at the same time a handle of the
  // application (`open`) and the domain its objects point to; its own `domain` pointer
  // starts as itself. Every other object has only a `domain` pointer.
  type Addr = nat

  datatype File = File(refs: nat, domain: Addr, open: bool)

  datatype Heap = Heap(files: map<Addr, File>, objects: map<Addr, Addr>, pathless: set<Addr>)

  const EMPTY := Heap(map[], map[], {})

  // What looking up a path reports: nothing there; an object of the same domain; an object
  // of another domain; or an object of another domain whose response has no usable URI, so
  // that the lookup fails after the domain has already been replaced.
  datatype Found = Missing | Same | External | ExternalNoUri

  datatype Kind = Group | CommittedType | Attribute

  // `Create` is group create, datatype commit, attribute create and attribute open: none of
  // them replaces the domain. `CommitUncopied` is a datatype commit whose type cannot be copied.
  // `Open` is group open and datatype open. `Info` is group information by name. `obj` and
  // `dom` are the addresses the allocator hands out.
  datatype Call =
    | OpenFile(file: Addr, ok: bool)
    | CloseFile(file: Addr)
    | Create(kind: Kind, parent: Addr, obj: Addr, named: bool, ok: bool)
    | CommitUncopied(parent: Addr, obj: Addr)
    | Open(kind: Kind, parent: Addr, obj: Addr, dom: Addr, found: Found, ok: bool)
    | Info(parent: Addr, dom: Addr, found: Found)
    | Close(obj: Addr)

  // A handle the application may still use.
  predicate Usable(h: Heap, p: Addr) {
    p in h.objects || (p in h.files && h.files[p].open)
  }

  function DomainOf(h: Heap, p: Addr): Addr
    requires Usable(h, p)
  {
    if p in h.objects then h.objects[p] else h.files[p].domain
  }

  predicate Free(h: Heap, a: Addr) {
    a !in h.files && a !in h.objects
  }

  // What the caller of the connector owes: live handles, and an allocator that does not hand
  // out an address in use.
  predicate Legal(h: Heap, c: Call) {
    match c
    case OpenFile(f, _) => Free(h, f)
    case CloseFile(f) => f in h.files && h.files[f].open
    case Create(_, p, o, _, _) => Usable(h, p) && Free(h, o)
    case CommitUncopied(p, o) => Usable(h, p) && Free(h, o)
    case Open(_, p, o, d, _, _) => Usable(h, p) && Free(h, o) && Free(h, d) && o != d
    case Info(p, d, _) => Usable(h, p) && Free(h, d)
    case Close(o) => o in h.objects
  }

  // ----- The single steps the connector takes -----

  predicate Live(h: Heap, d: Addr) {
    d in h.files && h.files[d].refs > 0
  }

  function Acquire(h: Heap, d: Addr): Heap
    requires Live(h, d)
  {
    h.(files := h.files[d := h.files[d].(refs := h.files[d].refs + 1)])
  }

  // RV_file_close: one reference less, and the memory goes with the last one.
  function Release(h: Heap, d: Addr): Heap
    requires Live(h, d)
  {
    if h.files[d].refs == 1 then h.(files := h.files - {d})
    else h.(files := h.files[d := h.files[d].(refs := h.files[d].refs - 1)])
  }

  function NewDomain(h: Heap, d: Addr): Heap
    requires Free(h, d)
  {
    h.(files := h.files[d := File(1, d, false)])
  }

  // ----- What each call amounts to -----

  // The call touches no freed memory and no memory that has not been written to. A
  // group-information call that swaps the domain of a file held by nothing else frees the very
  // object it then writes to. A group create under a group without a path cleans up the new
  // object before anything has been written to it; a datatype commit that cannot copy its type
  // cleans it up before its path has been.
  predicate Defined(h: Heap, c: Call)
    requires Legal(h, c)
  {
    match c
    case OpenFile(_, _) => true
    case CloseFile(f) => Live(h, f)
    case Create(kind, p, _, _, _) => Live(h, DomainOf(h, p)) && !(kind == Group && p in h.pathless)
    case CommitUncopied(_, _) => false
    case Open(_, p, _, _, _, _) => Live(h, DomainOf(h, p))
    case Info(p, _, found) =>
      Live(h, DomainOf(h, p)) &&
      (found == External && DomainOf(h, p) == p ==> h.files[p].refs > 1)
    case Close(o) => Live(h, h.objects[o])
  }

  function Apply(h: Heap, c: Call): Heap
    requires Legal(h, c) && Defined(h, c)
  {
    match c
    case OpenFile(f, ok) => if ok then h.(files := h.files[f := File(1, f, true)]) else h
    case CloseFile(f) =>
      var closed := h.(files := h.files[f := h.files[f].(open := false)]);
      Release(closed, f)
    case Create(kind, p, o, named, ok) =>
      var d := DomainOf(h, p);
      if ok then Name(Acquire(h, d).(objects := h.objects[o := d]), o, kind, named) else h
    case Open(kind, p, o, ext, found, ok) =>
      var d := DomainOf(h, p);
      if kind == Group && p in h.pathless then h else Opened(h, d, o, ext, found, ok)
    case Info(p, ext, found) =>
      var d := DomainOf(h, p);
      if found == ExternalNoUri then NewDomain(Release(h, d), ext)
      else if found == External then SetDomain(NewDomain(Release(h, d), ext), p, ext)
      else h
    case Close(o) => Release(h, h.objects[o]).(objects := h.objects - {o}, pathless := h.pathless - {o})
  }

  function Name(h: Heap, o: Addr, kind: Kind, named: bool): Heap {
    if kind == Group && !named then h.(pathless := h.pathless + {o}) else h
  }

  // An object opened through a parent in domain `d`.
  function Opened(h: Heap, d: Addr, o: Addr, ext: Addr, found: Found, ok: bool): Heap
    requires Live(h, d) && Free(h, ext)
  {
    if found == ExternalNoUri then NewDomain(Release(h, d), ext)
    else if found == Missing || !ok then h
    else if found == Same then Acquire(h, d).(objects := h.objects[o := d])
    else NewDomain(h, ext).(objects := h.objects[o := ext])
  }

  function SetDomain(h: Heap, p: Addr, d: Addr): Heap
    requires p in h.objects || p in h.files
  {
    if p in h.objects then h.(objects := h.objects[p := d])
    else h.(files := h.files[p := h.files[p].(domain := d)])
  }

  // ----- The invariant -----

  function Holders(h: Heap, d: Addr): set<Addr> {
    set o | o in h.objects && h.objects[o] == d
  }

  function Count(h: Heap, d: Addr): nat {
    |Holders(h, d)| + if d in h.files && h.files[d].open then 1 else 0
  }

  // Every domain's count is the number of its holders and is positive (so a domain is in
  // memory exactly as long as somebody holds it), every object points to a domain in memory,
  // a file's own pointer is itself, and no address is used twice.
  predicate Balanced(h: Heap) {
    && (forall d :: d in h.files ==> h.files[d].refs == Count(h, d) > 0)
    && (forall d :: d in h.files ==> h.files[d].domain == d && d !in h.objects)
    && (forall o :: o in h.objects ==> h.objects[o] in h.files)
    && h.pathless <= h.objects.Keys
  }

  predicate Keeps(h: Heap, c: Call)
    requires Legal(h, c)
  {
    Defined(h, c) && Balanced(Apply(h, c))
  }

  // The guard of the branches that go wrong: the lookup fails after the swap; the swap is done on
  // behalf of a file handle, whose reference belongs to the file itself; or the half-made object
  // is cleaned up before it has been set up.
  predicate Breaks(h: Heap, c: Call) {
    || (c.Open? && c.found == ExternalNoUri && !(c.kind == Group && c.parent in h.pathless))
    || (c.Info? && c.found == ExternalNoUri)
    || (c.Info? && c.found == External && c.parent !in h.objects)
    || (c.Create? && c.kind == Group && c.parent in h.pathless)
    || c.CommitUncopied?
  }

  // ----- How the single steps move the count -----

  lemma HoldersPut(h: Heap, o: Addr, d: Addr, x: Addr)
    requires o !in h.objects
    ensures |Holders(h.(objects := h.objects[o := d]), x)| == |Holders(h, x)| + if x == d then 1 else 0
  {
    var after := h.(objects := h.objects[o := d]);
    if x == d {
      assert Holders(after, x) == Holders(h, x) + {o};
    } else {
      assert Holders(after, x) == Holders(h, x);
    }
  }

  lemma HoldersDrop(h: Heap, o: Addr, x: Addr)
    requires o in h.objects
    ensures |Holders(h.(objects := h.objects - {o}), x)| == |Holders(h, x)| - if x == h.objects[o] then 1 else 0
  {
    var after := h.(objects := h.objects - {o});
    var kept := Holders(after, x);
    assert o !in kept;
    forall q ensures q in Holders(h, x) <==> q in kept || (q == o && x == h.objects[o]) {
      assert q in after.objects <==> q in h.objects && q != o;
    }
    if x == h.objects[o] {
      assert Holders(h, x) == kept + {o};
    } else {
      assert Holders(h, x) == kept;
    }
  }

  lemma HoldersMove(h: Heap, o: Addr, d: Addr, x: Addr)
    requires o in h.objects && h.objects[o] != d
    ensures |Holders(h.(objects := h.objects[o := d]), x)| ==
            |Holders(h, x)| + (if x == d then 1 else 0) - if x == h.objects[o] then 1 else 0
  {
    var less := h.(objects := h.objects - {o});
    HoldersDrop(h, o, x);
    HoldersPut(less, o, d, x);
    assert less.objects[o := d] == h.objects[o := d];
    assert Holders(less.(objects := less.objects[o := d]), x) == Holders(h.(objects := h.objects[o := d]), x);
  }

  lemma NoHolders(h: Heap, d: Addr)
    requires forall o :: o in h.objects ==> h.objects[o] != d
    ensures |Holders(h, d)| == 0
  {
    assert Holders(h, d) == {};
  }

  lemma SomeHolder(h: Heap, o: Addr)
    requires o in h.objects
    ensures |Holders(h, h.objects[o])| > 0
  {
    assert o in Holders(h, h.objects[o]);
  }

  lemma HoldersOnlyObjects(h: Heap, g: Heap, d: Addr)
    requires h.objects == g.objects
    ensures Holders(h, d) == Holders(g, d)
  {
  }

  // ----- Each kind of call -----

  lemma LiveDomain(h: Heap, p: Addr)
    requires Balanced(h) && Usable(h, p)
    ensures Live(h, DomainOf(h, p))
    ensures p in h.objects <==> DomainOf(h, p) != p
  {
  }

  lemma OpenFileKeeps(h: Heap, f: Addr)
    requires Balanced(h) && Free(h, f)
    ensures Balanced(h.(files := h.files[f := File(1, f, true)]))
  {
    var g := h.(files := h.files[f := File(1, f, true)]);
    forall d | d in g.files ensures g.files[d].refs == Count(g, d) > 0 {
      HoldersOnlyObjects(h, g, d);
      if d == f {
        NoHolders(g, f);
      }
    }
  }

  lemma CloseFileKeeps(h: Heap, f: Addr)
    requires Balanced(h) && f in h.files && h.files[f].open
    ensures Live(h, f)
    ensures Balanced(Apply(h, CloseFile(f)))
  {
    var g := Apply(h, CloseFile(f));
    forall d | d in g.files ensures g.files[d].refs == Count(g, d) > 0 {
      HoldersOnlyObjects(h, g, d);
    }
    forall o | o in g.objects ensures g.objects[o] in g.files {
      if g.objects[o] == f {
        SomeHolder(h, o);
      }
    }
  }

  lemma AddKeeps(h: Heap, d: Addr, o: Addr)
    requires Balanced(h) && d in h.files && Free(h, o)
    ensures Live(h, d)
    ensures Balanced(Acquire(h, d).(objects := h.objects[o := d]))
  {
    var g := Acquire(h, d).(objects := h.objects[o := d]);
    forall x | x in g.files ensures g.files[x].refs == Count(g, x) > 0 {
      HoldersPut(h, o, d, x);
      HoldersOnlyObjects(g, h.(objects := h.objects[o := d]), x);
    }
  }

  lemma NameKeeps(h: Heap, o: Addr, kind: Kind, named: bool)
    requires Balanced(h) && o in h.objects
    ensures Balanced(Name(h, o, kind, named))
  {
    var g := Name(h, o, kind, named);
    forall d | d in g.files ensures g.files[d].refs == Count(g, d) > 0 {
      HoldersOnlyObjects(h, g, d);
    }
  }

  lemma AddExternalKeeps(h: Heap, o: Addr, ext: Addr)
    requires Balanced(h) && Free(h, o) && Free(h, ext) && o != ext
    ensures Balanced(NewDomain(h, ext).(objects := h.objects[o := ext]))
  {
    var g := NewDomain(h, ext).(objects := h.objects[o := ext]);
    NoHolders(h, ext);
    forall x | x in g.files ensures g.files[x].refs == Count(g, x) > 0 {
      HoldersPut(h, o, ext, x);
      HoldersOnlyObjects(g, h.(objects := h.objects[o := ext]), x);
    }
  }

  lemma CloseKeeps(h: Heap, o: Addr)
    requires Balanced(h) && o in h.objects
    ensures Live(h, h.objects[o])
    ensures Balanced(Apply(h, Close(o)))
  {
    var d := h.objects[o];
    var g := Apply(h, Close(o));
    forall x | x in g.files ensures g.files[x].refs == Count(g, x) > 0 {
      HoldersDrop(h, o, x);
      HoldersOnlyObjects(g, h.(objects := h.objects - {o}), x);
    }
    forall q | q in g.objects ensures g.objects[q] in g.files {
      if g.objects[q] == d {
        SomeHolder(g, q);
        HoldersDrop(h, o, d);
        HoldersOnlyObjects(g, h.(objects := h.objects - {o}), d);
      }
    }
  }

  // A group that looks up a path in another domain is itself moved to that domain.
  lemma MoveKeeps(h: Heap, o: Addr, ext: Addr)
    requires Balanced(h) && o in h.objects && Free(h, ext)
    ensures Live(h, h.objects[o])
    ensures Balanced(SetDomain(NewDomain(Release(h, h.objects[o]), ext), o, ext))
  {
    var d := h.objects[o];
    var g := SetDomain(NewDomain(Release(h, d), ext), o, ext);
    NoHolders(h, ext);
    forall x | x in g.files ensures g.files[x].refs == Count(g, x) > 0 {
      HoldersMove(h, o, ext, x);
      HoldersOnlyObjects(g, h.(objects := h.objects[o := ext]), x);
    }
    forall q | q in g.objects ensures g.objects[q] in g.files {
      if g.objects[q] == d {
        SomeHolder(g, q);
        HoldersMove(h, o, ext, d);
        HoldersOnlyObjects(g, h.(objects := h.objects[o := ext]), d);
      }
    }
  }

  // ----- The results -----

  // A legal call keeps the invariant and touches only memory that is there and written to, if
  // and only if it is not one of the calls that go wrong.
  lemma CallKeepsBalance(h: Heap, c: Call)
    requires Balanced(h) && Legal(h, c)
    ensures Keeps(h, c) <==> !Breaks(h, c)
  {
    match c
    case OpenFile(f, _) => OpenFileKeeps(h, f);
    case CloseFile(f) => CloseFileKeeps(h, f);
    case Create(kind, p, o, named, _) =>
      LiveDomain(h, p);
      AddKeeps(h, DomainOf(h, p), o);
      NameKeeps(Acquire(h, DomainOf(h, p)).(objects := h.objects[o := DomainOf(h, p)]), o, kind, named);
    case CommitUncopied(_, _) =>
    case Open(_, _, _, _, _, _) => OpenKeepsBalance(h, c);
    case Info(_, _, _) => InfoKeepsBalance(h, c);
    case Close(o) => CloseKeeps(h, o);
  }

  lemma OpenKeepsBalance(h: Heap, c: Call)
    requires c.Open? && Balanced(h) && Legal(h, c)
    ensures Keeps(h, c) <==> !Breaks(h, c)
  {
    var p := c.parent;
    LiveDomain(h, p);
    if c.found == ExternalNoUri {
      DomainGoneAstray(h, p, c.dom);
    } else {
      AddKeeps(h, DomainOf(h, p), c.obj);
      AddExternalKeeps(h, c.obj, c.dom);
    }
  }

  lemma InfoKeepsBalance(h: Heap, c: Call)
    requires c.Info? && Balanced(h) && Legal(h, c)
    ensures Keeps(h, c) <==> !Breaks(h, c)
  {
    var p := c.parent;
    LiveDomain(h, p);
    if c.found == ExternalNoUri {
      DomainGoneAstray(h, p, c.dom);
    } else if p in h.objects {
      MoveKeeps(h, p, c.dom);
    }
  }

  // What is left when the lookup fails after the swap: the parent's domain has one reference
  // less than holders, or is freed although the parent still points to it, and the new domain
  // stays in memory with a reference that nobody holds.
  lemma DomainGoneAstray(h: Heap, p: Addr, ext: Addr)
    requires Balanced(h) && Usable(h, p) && Free(h, ext)
    ensures Live(h, DomainOf(h, p))
    ensures var d := DomainOf(h, p);
            var g := NewDomain(Release(h, d), ext);
            && (if Count(h, d) == 1 then d !in g.files && Usable(h, p)
                else d in g.files && g.files[d].refs == Count(g, d) - 1)
            && g.files[ext].refs == 1 && Count(g, ext) == 0
            && !Balanced(g)
  {
    LiveDomain(h, p);
    var d := DomainOf(h, p);
    var g := NewDomain(Release(h, d), ext);
    HoldersOnlyObjects(h, g, d);
    HoldersOnlyObjects(h, g, ext);
    NoHolders(h, ext);
  }

  // Every call of the run is legal when its turn comes.
  predicate LegalRun(h: Heap, calls: seq<Call>)
    decreases |calls|
  {
    calls == [] ||
    (Legal(h, calls[0]) && (Defined(h, calls[0]) ==> LegalRun(Apply(h, calls[0]), calls[1..])))
  }

  // The run touches only memory that is there, and every heap along it is balanced.
  predicate StaysBalanced(h: Heap, calls: seq<Call>)
    requires LegalRun(h, calls)
    decreases |calls|
  {
    Balanced(h) &&
    (calls == [] || (Defined(h, calls[0]) && StaysBalanced(Apply(h, calls[0]), calls[1..])))
  }

  // No call of the run goes wrong.
  predicate NeverBreaks(h: Heap, calls: seq<Call>)
    requires LegalRun(h, calls)
    decreases |calls|
  {
    calls == [] ||
    (!Breaks(h, calls[0]) && (Defined(h, calls[0]) ==> NeverBreaks(Apply(h, calls[0]), calls[1..])))
  }

  function Run(h: Heap, calls: seq<Call>): Heap
    requires LegalRun(h, calls) && StaysBalanced(h, calls)
    decreases |calls|
  {
    if calls == [] then h else Run(Apply(h, calls[0]), calls[1..])
  }

  lemma {:induction false} RunStaysBalanced(h: Heap, calls: seq<Call>)
    requires Balanced(h) && LegalRun(h, calls)
    ensures StaysBalanced(h, calls) <==> NeverBreaks(h, calls)
    decreases |calls|
  {
    hide Balanced, Apply, Legal, Defined, Breaks;
    if calls != [] {
      CallKeepsBalance(h, calls[0]);
      if Keeps(h, calls[0]) {
        RunStaysBalanced(Apply(h, calls[0]), calls[1..]);
      } else if Defined(h, calls[0]) {
        UnbalancedIsNotKept(Apply(h, calls[0]), calls[1..]);
      }
    }
  }

  lemma UnbalancedIsNotKept(h: Heap, calls: seq<Call>)
    requires LegalRun(h, calls) && !Balanced(h)
    ensures !StaysBalanced(h, calls)
  {
  }

  lemma {:induction false} RunEndsBalanced(h: Heap, calls: seq<Call>)
    requires LegalRun(h, calls) && StaysBalanced(h, calls)
    ensures Balanced(Run(h, calls))
    decreases |calls|
  {
    if calls != [] {
      RunEndsBalanced(Apply(h, calls[0]), calls[1..]);
    }
  }

  // From the empty heap, a run without such a call ends in a heap where a domain is in
  // memory exactly as long as its file handle is open or some object points to it, and where
  // every object points to a domain in memory. In particular, once everything has been
  // closed nothing is left.
  lemma DomainsLiveExactlyAsLongAsHeld(calls: seq<Call>)
    requires LegalRun(EMPTY, calls) && NeverBreaks(EMPTY, calls)
    ensures StaysBalanced(EMPTY, calls)
    ensures var h := Run(EMPTY, calls);
            && (forall d :: d in h.files ==> h.files[d].open || exists o :: o in h.objects && h.objects[o] == d)
            && (forall o :: o in h.objects ==> h.objects[o] in h.files)
            && (h.objects == map[] && (forall d :: d in h.files ==> !h.files[d].open) ==> h == EMPTY)
  {
    RunStaysBalanced(EMPTY, calls);
    RunEndsBalanced(EMPTY, calls);
    var h := Run(EMPTY, calls);
    forall d | d in h.files && !h.files[d].open
      ensures exists o :: o in h.objects && h.objects[o] == d
    {
      if forall o :: o in h.objects ==> h.objects[o] != d {
        NoHolders(h, d);
      }
    }
  }

  // A file is open; opening a group through an external link fails after the swap. The file
  // is freed while its handle is open: closing it touches freed memory.
  lemma FailedExternalOpenFreesTheFile()
    ensures var h := Apply(EMPTY, OpenFile(1, true));
            var c := Open(Group, 1, 2, 3, ExternalNoUri, false);
            && Balanced(h) && Legal(h, c) && Defined(h, c)
            && 1 !in Apply(h, c).files && 3 in Apply(h, c).files
  {
    OpenFileKeeps(EMPTY, 1);
    assert Free(EMPTY, 1);
    assert Apply(EMPTY, OpenFile(1, true)) == Heap(map[1 := File(1, 1, true)], map[], {});
  }

  // A file with one open attribute; group information is asked for through the file along an
  // external link; the file is closed. The attribute now points to freed memory.
  lemma InfoThroughFileStrandsObjects()
    ensures var h := Apply(Apply(EMPTY, OpenFile(1, true)), Create(Attribute, 1, 2, true, true));
            var c := Info(1, 3, External);
            && Balanced(h) && Legal(h, c) && Defined(h, c)
            && var g := Apply(h, c);
            && Legal(g, CloseFile(1)) && Defined(g, CloseFile(1))
            && Legal(Apply(g, CloseFile(1)), Close(2)) && !Defined(Apply(g, CloseFile(1)), Close(2))
  {
    OpenFileKeeps(EMPTY, 1);
    var a := Apply(EMPTY, OpenFile(1, true));
    assert a == Heap(map[1 := File(1, 1, true)], map[], {});
    AddKeeps(a, 1, 2);
    var h := Apply(a, Create(Attribute, 1, 2, true, true));
    assert h == Heap(map[1 := File(2, 1, true)], map[2 := 1], {});
  }

  // A group is created anonymously in a file; creating a group in it cleans up an object that has
  // not been set up.
  lemma GroupUnderAnonymousGroup()
    ensures var a := Apply(EMPTY, OpenFile(1, true));
            var h := Apply(a, Create(Group, 1, 2, false, true));
            var c := Create(Group, 2, 3, true, true);
            && Balanced(h) && Legal(h, c) && !Defined(h, c)
            && Defined(h, Open(Group, 2, 3, 4, Same, true)) && Apply(h, Open(Group, 2, 3, 4, Same, true)) == h
  {
    OpenFileKeeps(EMPTY, 1);
    var a := Apply(EMPTY, OpenFile(1, true));
    assert a == Heap(map[1 := File(1, 1, true)], map[], {});
    AddKeeps(a, 1, 2);
    var g := Acquire(a, 1).(objects := a.objects[2 := 1]);
    NameKeeps(g, 2, Group, false);
    assert Apply(a, Create(Group, 1, 2, false, true)) == Heap(map[1 := File(2, 1, true)], map[2 := 1], {2});
  }

  // ----- What the calls do to the application's handles -----

  // The domain a handle stands for: an object's, or the file itself.
  function DomainBehind(h: Heap, p: Addr): Addr {
    if p in h.objects then h.objects[p] else p
  }

  function OpenFiles(h: Heap): set<Addr> {
    set f | f in h.files && h.files[f].open
  }

  // The objects and open files there are to be after a call.
  function ObjectsAfter(h: Heap, c: Call): map<Addr, Addr>
    requires Legal(h, c)
  {
    match c
    case Create(_, p, o, _, true) => h.objects[o := DomainBehind(h, p)]
    case Open(kind, p, o, dom, found, true) =>
      if kind == Group && p in h.pathless then h.objects
      else if found == Same then h.objects[o := DomainBehind(h, p)]
      else if found == External then h.objects[o := dom]
      else h.objects
    case Info(p, dom, External) => h.objects[p := dom]
    case Close(o) => h.objects - {o}
    case _ => h.objects
  }

  function OpenFilesAfter(h: Heap, c: Call): set<Addr> {
    match c
    case OpenFile(f, true) => OpenFiles(h) + {f}
    case CloseFile(f) => OpenFiles(h) - {f}
    case _ => OpenFiles(h)
  }

  function PathlessAfter(h: Heap, c: Call): set<Addr> {
    match c
    case Create(Group, _, o, false, true) => h.pathless + {o}
    case Close(o) => h.pathless - {o}
    case _ => h.pathless
  }

  ghost predicate DoesItsJob(h: Heap, c: Call)
    requires Legal(h, c)
  {
    && Defined(h, c)
    && var g := Apply(h, c);
       && g.objects == ObjectsAfter(h, c) && OpenFiles(g) == OpenFilesAfter(h, c)
       && g.pathless == PathlessAfter(h, c)
  }

  /** Apart from the calls that break the count, a call changes the application's handles as it
      should: a create or open that succeeds yields an object in the parent's domain or the one
      found, a close takes its object away, a file is open until it is closed even while objects
      keep its domain in memory, and everything else stays. */
  lemma CallDoesItsJob(h: Heap, c: Call)
    requires Balanced(h) && Legal(h, c) && !Breaks(h, c)
    ensures DoesItsJob(h, c)
  {
    CallKeepsBalance(h, c);
    hide Balanced, DoesItsJob;
    match c
    case OpenFile(_, _) => OpenFileDoesItsJob(h, c);
    case CloseFile(_) => CloseFileDoesItsJob(h, c);
    case Create(_, _, _, _, _) => CreateDoesItsJob(h, c);
    case CommitUncopied(_, _) =>
    case Open(_, _, _, _, _, _) => OpenDoesItsJob(h, c);
    case Info(_, _, _) => InfoDoesItsJob(h, c);
    case Close(_) => CloseDoesItsJob(h, c);
  }

  lemma OpenAfterAcquire(h: Heap, d: Addr)
    requires Live(h, d)
    ensures OpenFiles(Acquire(h, d)) == OpenFiles(h)
  {
  }

  lemma OpenAfterRelease(h: Heap, d: Addr)
    requires Live(h, d) && (h.files[d].refs == 1 ==> !h.files[d].open)
    ensures OpenFiles(Release(h, d)) == OpenFiles(h)
  {
  }

  lemma OpenAfterNew(h: Heap, d: Addr)
    requires Free(h, d)
    ensures OpenFiles(NewDomain(h, d)) == OpenFiles(h)
  {
  }

  lemma OpenOfFiles(g: Heap, h: Heap)
    requires g.files == h.files
    ensures OpenFiles(g) == OpenFiles(h)
  {
  }

  lemma CreateDoesItsJob(h: Heap, c: Call)
    requires c.Create? && Balanced(h) && Legal(h, c) && Defined(h, c)
    ensures DoesItsJob(h, c)
  {
    var d := DomainOf(h, c.parent);
    HandleDomain(h, c.parent);
    OpenAfterAcquire(h, d);
    OpenOfFiles(Apply(h, c), if c.ok then Acquire(h, d) else h);
  }

  lemma OpenDoesItsJob(h: Heap, c: Call)
    requires c.Open? && Balanced(h) && Legal(h, c) && Defined(h, c) && !Breaks(h, c)
    ensures DoesItsJob(h, c)
  {
    var d := DomainOf(h, c.parent);
    HandleDomain(h, c.parent);
    OpenAfterAcquire(h, d);
    OpenAfterNew(h, c.dom);
    var g := Apply(h, c);
    hide Balanced, OpenFiles;
    if c.kind == Group && c.parent in h.pathless {
    } else if c.ok && c.found == Same {
      OpenOfFiles(g, Acquire(h, d));
    } else if c.ok && c.found == External {
      OpenOfFiles(g, NewDomain(h, c.dom));
    }
  }

  lemma InfoDoesItsJob(h: Heap, c: Call)
    requires c.Info? && Balanced(h) && Legal(h, c) && Defined(h, c) && !Breaks(h, c)
    ensures DoesItsJob(h, c)
  {
    HandleDomain(h, c.parent);
    if c.found == External {
      var d := DomainOf(h, c.parent);
      OpenIsCounted(h, c.parent);
      OpenAfterRelease(h, d);
      OpenAfterNew(Release(h, d), c.dom);
      OpenOfFiles(Apply(h, c), NewDomain(Release(h, d), c.dom));
    }
  }

  lemma CloseDoesItsJob(h: Heap, c: Call)
    requires c.Close? && Balanced(h) && Legal(h, c) && Defined(h, c)
    ensures DoesItsJob(h, c)
  {
    OpenIsCounted(h, c.obj);
    OpenAfterRelease(h, h.objects[c.obj]);
    OpenOfFiles(Apply(h, c), Release(h, h.objects[c.obj]));
  }

  lemma OpenFileDoesItsJob(h: Heap, c: Call)
    requires c.OpenFile? && Legal(h, c)
    ensures DoesItsJob(h, c)
  {
  }

  lemma CloseFileDoesItsJob(h: Heap, c: Call)
    requires c.CloseFile? && Legal(h, c) && Defined(h, c)
    ensures DoesItsJob(h, c)
  {
    var closed := h.(files := h.files[c.file := h.files[c.file].(open := false)]);
    assert OpenFiles(closed) == OpenFiles(h) - {c.file};
    OpenAfterRelease(closed, c.file);
  }

  // A domain that only one object holds has no open file handle.
  lemma OpenIsCounted(h: Heap, o: Addr)
    requires Balanced(h) && o in h.objects
    ensures h.objects[o] in h.files
    ensures h.files[h.objects[o]].open ==> h.files[h.objects[o]].refs > 1
  {
    SomeHolder(h, o);
  }

  lemma HandleDomain(h: Heap, p: Addr)
    requires Balanced(h) && Usable(h, p)
    ensures DomainOf(h, p) == DomainBehind(h, p) && Live(h, DomainOf(h, p))
  {
    LiveDomain(h, p);
  }

  /** The handles determine the rest: two balanced heaps with the same objects and the same open
      files keep the same domains in memory, with the same counts. */
  lemma HandlesDetermineTheHeap(g: Heap, h: Heap)
    requires Balanced(g) && Balanced(h)
    requires g.objects == h.objects && OpenFiles(g) == OpenFiles(h) && g.pathless == h.pathless
    ensures g == h
  {
    forall d ensures d in g.files <==> d in h.files {
      InMemoryIfHeld(g, d);
      InMemoryIfHeld(h, d);
      HoldersOnlyObjects(g, h, d);
      assert d in OpenFiles(g) <==> d in OpenFiles(h);
    }
    forall d | d in g.files ensures g.files[d] == h.files[d] {
      HoldersOnlyObjects(g, h, d);
      assert d in OpenFiles(g) <==> d in OpenFiles(h);
    }
    assert g.files == h.files;
  }

  lemma InMemoryIfHeld(h: Heap, d: Addr)
    requires Balanced(h)
    ensures d in h.files <==> d in OpenFiles(h) || Holders(h, d) != {}
  {
    if d in h.files {
      assert h.files[d].refs == Count(h, d) > 0;
    }
    if Holders(h, d) != {} {
      var o :| o in Holders(h, d);
      assert h.objects[o] == d;
    }
  }
}
