// The calls on files, groups, datatypes and attributes as they run, one reference step after
// the other, on the heap of the connector.
// Sources: rest_vol_file.c, rest_vol_group.c, rest_vol_datatype.c, rest_vol_attr.c.

module DomainRefsObject {
  import opened DomainRefs

  // The heap once a new object has been linked to its parent's domain.
  function HalfMade(h: Heap, d: Addr, o: Addr): Heap
    requires Live(h, d)
  {
    Acquire(h, d).(objects := h.objects[o := d])
  }

  lemma UndoHalfMade(h: Heap, d: Addr, o: Addr)
    requires Live(h, d) && Free(h, o) && o !in h.pathless
    ensures Apply(HalfMade(h, d, o), Close(o)) == h
  {
    assert HalfMade(h, d, o).objects - {o} == h.objects;
    assert h.files[d := h.files[d]] == h.files;
  }

  lemma ReleaseHalfMade(h: Heap, d: Addr, o: Addr)
    requires Live(h, d) && Free(h, o)
    ensures Release(HalfMade(h, d, o), d) == h.(objects := h.objects[o := d])
  {
    assert h.files[d := h.files[d]] == h.files;
  }

  lemma UndoSwapped(h: Heap, d: Addr, o: Addr, ext: Addr)
    requires Live(h, d) && Free(h, o) && Free(h, ext) && o != ext && o !in h.pathless
    ensures var g := NewDomain(h, ext);
            && Apply(g.(objects := h.objects[o := ext]), Close(o)) == h
            && Apply(g.(objects := h.objects[o := d]), Close(o)) == NewDomain(Release(h, d), ext)
  {
    assert h.objects[o := ext] - {o} == h.objects == h.objects[o := d] - {o};
    assert h.files[ext := File(1, ext, false)] - {ext} == h.files;
    assert h.files[ext := File(1, ext, false)] - {d} == (h.files - {d})[ext := File(1, ext, false)];
  }

  lemma SetAgain(m: map<Addr, Addr>, o: Addr, d: Addr, e: Addr)
    ensures m[o := d][o := e] == m[o := e]
  {
  }

  class Connector {
    var files: map<Addr, File>
    var objects: map<Addr, Addr>
    var pathless: set<Addr>

    constructor ()
      ensures State() == EMPTY
    {
      files, objects, pathless := map[], map[], {};
    }

    ghost function State(): Heap
      reads this
    {
      Heap(files, objects, pathless)
    }

    method Increment(d: Addr)
      requires Live(State(), d)
      modifies this`files
      ensures State() == Acquire(old(State()), d)
    {
      files := files[d := files[d].(refs := files[d].refs + 1)];
    }

    method FileClose(d: Addr)
      requires Live(State(), d)
      modifies this`files
      ensures State() == Release(old(State()), d)
    {
      files := files[d := files[d].(refs := files[d].refs - 1)];
      if files[d].refs == 0 {
        files := files - {d};
      }
    }

    method FileOpen(f: Addr, ok: bool)
      requires Free(State(), f)
      modifies this
      ensures State() == Apply(old(State()), OpenFile(f, ok))
    {
      files := files[f := File(1, f, true)];
      if !ok {
        FileClose(f);
      }
    }

    // The application gives its handle back; the memory stays while objects need it.
    method HandleClose(f: Addr)
      requires Legal(State(), CloseFile(f)) && Defined(State(), CloseFile(f))
      modifies this
      ensures State() == Apply(old(State()), CloseFile(f))
    {
      files := files[f := files[f].(open := false)];
      FileClose(f);
    }

    method ObjectClose(o: Addr)
      requires Legal(State(), Close(o)) && Defined(State(), Close(o))
      modifies this
      ensures State() == Apply(old(State()), Close(o))
    {
      FileClose(objects[o]);
      objects, pathless := objects - {o}, pathless - {o};
    }

    // The domain is taken from the parent, not from the new object: the count goes up before
    // anything can fail, and closing the half-made object brings it down again.
    method ObjectCreate(kind: Kind, parent: Addr, o: Addr, named: bool, ok: bool)
      requires Legal(State(), Create(kind, parent, o, named, ok))
      requires Defined(State(), Create(kind, parent, o, named, ok)) && pathless <= objects.Keys
      modifies this
      ensures State() == Apply(old(State()), Create(kind, parent, o, named, ok))
    {
      ghost var h := State();
      var domain := if parent in objects then objects[parent] else files[parent].domain;
      objects := objects[o := domain];
      Increment(domain);
      UndoHalfMade(h, domain, o);
      if kind == Group && !named {
        pathless := pathless + {o};
      }
      if !ok {
        ObjectClose(o);
        assert pathless == h.pathless;
      }
    }

    // The lookup with its callback: when the object is in another domain, that domain takes
    // the place of the one handed in, which is released.
    method Lookup(domain: Addr, ext: Addr, found: Found) returns (success: bool, result: Addr)
      requires Live(State(), domain) && Free(State(), ext)
      modifies this`files
      ensures success <==> found == Same || found == External
      ensures result == if found == External || found == ExternalNoUri then ext else domain
      ensures State() == if found == External || found == ExternalNoUri
                         then NewDomain(Release(old(State()), domain), ext)
                         else old(State())
    {
      success, result := found != Missing, domain;
      if found == External || found == ExternalNoUri {
        files := files[ext := File(1, ext, false)];
        FileClose(domain);
        result := ext;
        success := found == External;
      }
    }

    method ObjectOpen(kind: Kind, parent: Addr, o: Addr, ext: Addr, found: Found, ok: bool)
      requires Legal(State(), Open(kind, parent, o, ext, found, ok))
      requires Defined(State(), Open(kind, parent, o, ext, found, ok)) && pathless <= objects.Keys
      modifies this
      ensures State() == Apply(old(State()), Open(kind, parent, o, ext, found, ok))
      ensures o in objects <==> ok && (found == Same || found == External) && !(kind == Group && parent in old(pathless))
      ensures o in objects ==> objects[o] == if found == Same then DomainOf(old(State()), parent) else ext
    {
      ghost var h := State();
      if kind == Group && parent in pathless {
        return;
      }
      var domain := if parent in objects then objects[parent] else files[parent].domain;
      objects := objects[o := domain];
      Increment(domain);
      assert State() == HalfMade(h, domain, o);
      ReleaseHalfMade(h, domain, o);
      hide Acquire, Release, HalfMade, Opened;
      var success, result := Lookup(domain, ext, found);
      FinishOpen(h, domain, o, ext, found, success, result, ok);
    }

    // What is done with the outcome of the lookup.
    method FinishOpen(ghost h: Heap, ghost domain: Addr, o: Addr, ghost ext: Addr, ghost found: Found,
                      success: bool, result: Addr, ok: bool)
      requires Live(h, domain) && Free(h, o) && Free(h, ext) && o != ext && o !in h.pathless
      requires State() == if found == External || found == ExternalNoUri
                          then NewDomain(h.(objects := h.objects[o := domain]), ext)
                          else HalfMade(h, domain, o)
      requires success <==> found == Same || found == External
      requires result == if found == External || found == ExternalNoUri then ext else domain
      modifies this
      ensures State() == Opened(h, domain, o, ext, found, ok)
      ensures o in objects <==> success && ok
      ensures o in objects ==> objects[o] == result
    {
      UndoHalfMade(h, domain, o);
      UndoSwapped(h, domain, o, ext);
      SetAgain(h.objects, o, domain, result);
      if success {
        objects := objects[o := result];
      }
      if !success || !ok {
        ObjectClose(o);
      }
    }

    method GroupInfo(parent: Addr, ext: Addr, found: Found)
      requires Legal(State(), Info(parent, ext, found)) && Defined(State(), Info(parent, ext, found))
      modifies this
      ensures State() == Apply(old(State()), Info(parent, ext, found))
    {
      var domain := if parent in objects then objects[parent] else files[parent].domain;
      var success, result := Lookup(domain, ext, found);
      if success {
        if parent in objects {
          objects := objects[parent := result];
        } else {
          files := files[parent := files[parent].(domain := result)];
        }
      }
    }
  }
}
