/**
 Creating a group together with the groups on the way to it: the path is taken apart from its
 end, and what is missing is created from the top.
 Source: rest_vol_group.c, RV_group_create; rest_vol.c, H5_rest_basename and H5_rest_dirname.
 */
module Groups {

  // The place of a group on the server: the names on the way from the root group.
  type Place = seq<string>

  // ----- Path names -----

  // The position of the last '/', or -1.
  function LastSlash(path: string): (k: int)
    ensures -1 <= k < |path|
    ensures k >= 0 ==> path[k] == '/'
    ensures forall j :: k < j < |path| ==> path[j] != '/'
  {
    if path == "" then -1
    else if path[|path| - 1] == '/' then |path| - 1
    else LastSlash(path[..|path| - 1])
  }

  function Basename(path: string): string {
    path[LastSlash(path) + 1..]
  }

  // Everything before the base name, the slash included.
  function Dirname(path: string): string {
    path[..LastSlash(path) + 1]
  }

  // The names a path lists; two slashes in a row, or one at the end, add nothing.
  function Names(path: string): Place {
    var k := LastSlash(path);
    (if k <= 0 then [] else Names(path[..k])) + if k + 1 < |path| then [path[k + 1..]] else []
  }

  // The group a path means, seen from `from`.
  function Resolve(from: Place, path: string): Place {
    (if path != "" && path[0] == '/' then [] else from) + Names(path)
  }

  // No name is empty; a single slash may stand in front.
  predicate Proper(path: string) {
    var k := LastSlash(path);
    k + 1 < |path| && (k <= 0 || Proper(path[..k]))
  }

  // ----- The tree on the server -----

  // A tree holds the root group and, with every group, the group it is in.
  predicate Tree(groups: set<Place>) {
    [] in groups && forall p :: p in groups && p != [] ==> p[..|p| - 1] in groups
  }

  // The groups on the way to `p`, `p` included, that are not there yet, outermost first.
  function Missing(groups: set<Place>, p: Place): seq<Place>
    requires [] in groups
  {
    if p in groups then [] else Missing(groups, p[..|p| - 1]) + [p]
  }

  lemma OnTheWay(q: Place, p: Place)
    requires p != []
    ensures q <= p <==> q == p || q <= p[..|p| - 1]
  {
    if q <= p && q != p {
      assert q == p[..|q|] == p[..|p| - 1][..|q|];
    }
    if q <= p[..|p| - 1] {
      assert p[..|p| - 1] <= p;
    }
  }

  // A place is listed exactly if it is on the way and not there.
  lemma {:induction false} MissingIsExact(groups: set<Place>, p: Place, q: Place)
    requires Tree(groups)
    ensures q in Missing(groups, p) <==> q <= p && q !in groups
    decreases |p|
  {
    if p in groups {
      if q <= p {
        PrefixesAreThere(groups, p, q);
      }
    } else {
      OnTheWay(q, p);
      MissingIsExact(groups, p[..|p| - 1], q);
    }
  }

  // No place is listed twice: each one lies on the way to the next.
  lemma {:induction false} MissingDescends(groups: set<Place>, p: Place, i: nat, j: nat)
    requires Tree(groups) && i < j < |Missing(groups, p)|
    ensures Missing(groups, p)[i] < Missing(groups, p)[j]
    decreases |p|
  {
    var m, up := Missing(groups, p), p[..|p| - 1];
    if j == |m| - 1 {
      assert m[i] in Missing(groups, up);
      MissingIsExact(groups, up, m[i]);
      OnTheWay(m[i], p);
    } else {
      MissingDescends(groups, up, i, j);
    }
  }

  lemma {:induction false} PrefixesAreThere(groups: set<Place>, p: Place, q: Place)
    requires Tree(groups) && p in groups && q <= p
    ensures q in groups
    decreases |p|
  {
    if q != p {
      assert q <= p[..|p| - 1];
      PrefixesAreThere(groups, p[..|p| - 1], q);
    }
  }

  // ----- The recursion -----

  // The group in which the last name of a path is looked for.
  function Parent(from: Place, path: string): Place {
    var k := LastSlash(path);
    if k == -1 then from else if k == 0 then [] else Resolve(from, path[..k])
  }

  lemma SlashAtEnd(d: string)
    requires d != "" && d[|d| - 1] == '/'
    ensures Names(d) == if |d| == 1 then [] else Names(d[..|d| - 1])
  {
  }

  lemma DirnameResolves(from: Place, path: string)
    requires Dirname(path) != ""
    ensures Resolve(from, Dirname(path)) == Parent(from, path)
    ensures Dirname(path)[..|Dirname(path)| - 1] == path[..LastSlash(path)]
  {
    hide LastSlash, Names;
    var k, d := LastSlash(path), Dirname(path);
    assert d[k] == '/' && d[..k] == path[..k];
    SlashAtEnd(d);
    if k == 0 {
      Regroup([], [], []);
    } else {
      assert d[0] == path[0] == path[..k][0];
    }
  }

  // The last name of a path, if it has one.
  function LastName(path: string): Place {
    if Basename(path) == "" then [] else [Basename(path)]
  }

  lemma PathResolves(from: Place, path: string)
    ensures Resolve(from, path) ==
            if Basename(path) == "" then Parent(from, path) else Parent(from, path) + [Basename(path)]
  {
    hide Resolve, Parent, Basename;
    ParentAndLast(from, path);
    Regroup(Parent(from, path), [], []);
  }

  lemma ParentAndLast(from: Place, path: string)
    ensures Resolve(from, path) == Parent(from, path) + LastName(path)
  {
    hide LastSlash, Names, LastName;
    var k, start := LastSlash(path), if path != "" && path[0] == '/' then [] else from;
    NamesEnd(path);
    var before := if k <= 0 then [] else Names(path[..k]);
    Regroup(start, before, LastName(path));
    assert start + before == Parent(from, path) by {
      if k > 0 { assert path[..k][0] == path[0]; } else if k == 0 { assert path[0] == '/'; }
    }
  }

  lemma NamesEnd(path: string)
    ensures var k := LastSlash(path);
            Names(path) == (if k <= 0 then [] else Names(path[..k])) + LastName(path)
  {
  }

  lemma ProperDirname(path: string)
    requires Proper(path)
    ensures Basename(path) != ""
    ensures LastSlash(path) > 0 ==> Proper(path[..LastSlash(path)])
  {
  }

  lemma Regroup(a: Place, b: Place, c: Place)
    ensures a + (b + c) == a + b + c && a + [] == a
  {
  }

  // ----- The call -----

  // The call succeeds exactly if the group is not there and, unless intermediate groups may be
  // created, the one it goes in is; it then has created the missing groups on the way and the
  // group itself, from the outermost in, each once, and nothing else. When it fails, nothing
  // has been created.
  ghost predicate Outcome(before: set<Place>, after: set<Place>, made: seq<Place>, target: Place, intermediate: bool, ok: bool)
    requires [] in before
  {
    && target != []
    && (ok <==> target !in before && (intermediate || target[..|target| - 1] in before))
    && made == (if ok then Missing(before, target) else [])
    && (forall p :: p in after <==> p in before || p in made)
  }

  lemma PutInto(before: set<Place>, at: Place, name: string, intermediate: bool)
    requires Tree(before) && at in before
    ensures var target := at + [name];
            if target in before then Outcome(before, before, [], target, intermediate, false)
            else Outcome(before, before + {target}, [target], target, intermediate, true) && Tree(before + {target})
  {
    var target := at + [name];
    assert target[..|target| - 1] == at;
  }

  lemma NowhereToPut(before: set<Place>, at: Place, name: string)
    requires Tree(before) && at !in before
    ensures Outcome(before, before, [], at + [name], false, false)
  {
    var target := at + [name];
    assert target[..|target| - 1] == at;
  }

  lemma PutIntoNew(before: set<Place>, between: set<Place>, made: seq<Place>, at: Place, name: string)
    requires Tree(before) && Tree(between)
    requires Outcome(before, between, made, at, true, true)
    ensures var target := at + [name];
            && at in between && target !in between
            && Outcome(before, between + {target}, made + [target], target, true, true)
            && Tree(between + {target})
  {
    var target := at + [name];
    assert target[..|target| - 1] == at;
    assert at in made;
    if target in before {
      PrefixesAreThere(before, target, at);
    }
    MissingIsExact(before, at, target);
  }

  lemma NeverRefused(before: set<Place>, after: set<Place>, made: seq<Place>, target: Place)
    requires [] in before && target !in before
    ensures !Outcome(before, after, made, target, true, false)
  {
  }

  class Server {
    var groups: set<Place>
    ghost var posts: seq<Place>

    constructor ()
      ensures groups == {[]} && posts == []
    {
      groups, posts := {[]}, [];
    }

    // A request to make a group and link it under `name`: refused if the link exists.
    method Post(at: Place, name: string) returns (ok: bool)
      modifies this
      ensures ok <==> at + [name] !in old(groups)
      ensures groups == if ok then old(groups) + {at + [name]} else old(groups)
      ensures posts == if ok then old(posts) + [at + [name]] else old(posts)
    {
      ok := at + [name] !in groups;
      if ok {
        groups, posts := groups + {at + [name]}, posts + [at + [name]];
      }
    }

    // The group that will hold the new one: found on the server, or made by creating it first.
    method FindOrMake(from: Place, path: string, intermediate: bool)
      returns (found: bool, at: Place, ghost made: seq<Place>)
      requires Tree(groups) && from in groups
      modifies this
      ensures Tree(groups) && old(groups) <= groups && posts == old(posts) + made
      ensures at == Parent(from, path) && (found ==> at in groups)
      ensures at in old(groups) ==> found && groups == old(groups) && made == []
      ensures at !in old(groups) && !intermediate ==> !found && groups == old(groups) && made == []
      ensures at !in old(groups) && intermediate && Proper(path) ==> found && Outcome(old(groups), groups, made, at, true, true)
      decreases |path|, 0
    {
      hide LastSlash, Names, Resolve, Outcome, Missing, Basename;
      found, at, made := true, from, [];
      var dirname := Dirname(path);
      if dirname != "" {
        DirnameResolves(from, path);
        at := Resolve(from, dirname);
        if at !in groups {
          found := false;
          if intermediate {
            dirname := dirname[..|dirname| - 1];
            assert dirname == path[..LastSlash(path)];
            found, made := GroupCreate(from, dirname, intermediate);
            if Proper(path) {
              ProperDirname(path);
              NeverRefused(old(groups), groups, made, at);
            }
          }
        }
      }
    }

    // RV_group_create from the group `from`, for any path; the outcome is that of a path
    // without empty names.
    method GroupCreate(from: Place, path: string, intermediate: bool) returns (ok: bool, ghost made: seq<Place>)
      requires Tree(groups) && from in groups
      modifies this
      ensures Tree(groups) && old(groups) <= groups && posts == old(posts) + made
      ensures ok ==> Resolve(from, path) in groups
      ensures Proper(path) ==> Outcome(old(groups), groups, made, Resolve(from, path), intermediate, ok)
      decreases |path|, 1
    {
      hide Proper, LastSlash, Names, Resolve, Outcome, Missing, Parent, Basename;
      var at;
      ok, at, made := FindOrMake(from, path, intermediate);
      PathResolves(from, path);
      var basename := Basename(path);
      if Proper(path) {
        ProperDirname(path);
      }
      if !ok {
        NowhereToPut(old(groups), at, basename);
        return;
      }
      ghost var before := old(groups);
      ghost var between := groups;
      PutInto(between, at, basename, intermediate);
      if at !in before && Proper(path) {
        PutIntoNew(before, between, made, at, basename);
      }
      ok := Post(at, basename);
      assert [] + [at + [basename]] == [at + [basename]];
      made := if ok then made + [at + [basename]] else made;
    }
  }
}
