/** Path names: path_parse, the washing of "." and "..", and what a path names in the tree. */
module Paths {
  import opened Codec
  import opened Store
  import opened Directory
  import opened Tree

  const SLASH: byte := 47

  type Name = seq<byte>

  // ---- path_parse ----

  function SlashRun(p: seq<byte>): (k: nat)
    ensures k <= |p| && (forall x :: 0 <= x < k ==> p[x] == SLASH) && (k < |p| ==> p[k] != SLASH)
  {
    if p == [] || p[0] != SLASH then 0 else 1 + SlashRun(p[1..])
  }

  function NameRun(p: seq<byte>): (k: nat)
    ensures k <= |p| && (forall x :: 0 <= x < k ==> p[x] != SLASH) && (k < |p| ==> p[k] == SLASH)
  {
    if p == [] || p[0] == SLASH then 0 else 1 + NameRun(p[1..])
  }

  /** The first component of a path, and what follows it. */
  function First(p: seq<byte>): Name {
    var q := p[SlashRun(p)..];
    q[..NameRun(q)]
  }

  function Rest(p: seq<byte>): seq<byte> {
    var q := p[SlashRun(p)..];
    q[NameRun(q)..]
  }

  lemma SlashRunIs(p: seq<byte>, k: nat)
    requires k <= |p| && (forall x :: 0 <= x < k ==> p[x] == SLASH) && (k < |p| ==> p[k] != SLASH)
    ensures SlashRun(p) == k
  {}

  lemma NameRunIs(p: seq<byte>, k: nat)
    requires k <= |p| && (forall x :: 0 <= x < k ==> p[x] != SLASH) && (k < |p| ==> p[k] == SLASH)
    ensures NameRun(p) == k
  {}

  /** The two loops of path_parse in one statement: k slashes, then a name up to m. */
  lemma ParseIs(p: seq<byte>, k: nat, m: nat)
    requires k <= m <= |p| && (forall x :: 0 <= x < k ==> p[x] == SLASH) && (k < |p| ==> p[k] != SLASH)
    requires (forall x :: k <= x < m ==> p[x] != SLASH) && (m < |p| ==> p[m] == SLASH)
    ensures First(p) == p[k..m] && Rest(p) == p[m..]
  {
    SlashRunIs(p, k);
    var q := p[k..];
    NameRunIs(q, m - k);
    assert q[..m - k] == p[k..m] && q[m - k..] == p[m..];
  }

  /** path_parse; an empty rest is its NULL. */
  method PathParse(p: seq<byte>) returns (name: Name, rest: seq<byte>)
    ensures name == First(p) && rest == Rest(p)
  {
    hide First, Rest;
    var k := 0;
    while k < |p| && p[k] == SLASH
      invariant k <= |p| && forall x :: 0 <= x < k ==> p[x] == SLASH
    {
      k := k + 1;
    }
    var m := k;
    name := [];
    while m < |p| && p[m] != SLASH
      invariant k <= m <= |p| && name == p[k..m] && forall x :: k <= x < m ==> p[x] != SLASH
    {
      name := name + [p[m]];
      m := m + 1;
    }
    ParseIs(p, k, m);
    rest := p[m..];
  }

  lemma ParseShrinks(p: seq<byte>)
    ensures First(p) != [] ==> |Rest(p)| < |p|
    ensures SLASH !in First(p) && (Rest(p) == [] || Rest(p)[0] == SLASH)
  {}

  /** The components of a path, as repeated path_parse delivers them. */
  function Components(p: seq<byte>): seq<Name>
    decreases |p|
  {
    ParseShrinks(p);
    if First(p) == [] then [] else [First(p)] + Components(Rest(p))
  }

  // ---- normal paths ----

  predicate CleanName(n: Name) {
    n != [] && SLASH !in n
  }

  predicate PlainName(n: Name) {
    CleanName(n) && n != DOT && n != DOTDOT
  }

  predicate Clean(st: seq<Name>) {
    forall k :: 0 <= k < |st| ==> CleanName(st[k])
  }

  /** A stack of names: no empty one, no slash in them, no "." and no "..". */
  predicate Normal(st: seq<Name>) {
    forall k :: 0 <= k < |st| ==> PlainName(st[k])
  }

  function Render(st: seq<Name>): seq<byte> {
    if st == [] then [] else Render(st[..|st| - 1]) + [SLASH] + st[|st| - 1]
  }

  /** The path that spells a stack. */
  function Spell(st: seq<Name>): seq<byte> {
    if st == [] then [SLASH] else Render(st)
  }

  function Push(st: seq<Name>, n: Name): seq<Name> {
    if n == DOTDOT then if st == [] then [] else st[..|st| - 1]
    else if n == DOT then st
    else st + [n]
  }

  /** The stack normal form of a list of components. */
  function Norm(cs: seq<Name>): seq<Name> {
    if cs == [] then [] else Push(Norm(cs[..|cs| - 1]), cs[|cs| - 1])
  }

  lemma {:induction false} ComponentsClean(p: seq<byte>)
    ensures Clean(Components(p))
    decreases |p|
  {
    ParseShrinks(p);
    if First(p) != [] {
      ComponentsClean(Rest(p));
    }
  }

  lemma {:induction false} NormIsNormal(cs: seq<Name>)
    requires Clean(cs)
    ensures Normal(Norm(cs))
  {
    if cs != [] {
      NormIsNormal(cs[..|cs| - 1]);
    }
  }

  /** A normal stack is its own normal form. */
  lemma {:induction false} NormOfNormal(st: seq<Name>)
    requires Normal(st)
    ensures Norm(st) == st
  {
    if st != [] {
      var n := |st| - 1;
      NormOfNormal(st[..n]);
      assert st == st[..n] + [st[n]];
    }
  }

  lemma Regroup(a: seq<byte>, b: seq<byte>, c: seq<byte>, d: seq<byte>)
    ensures a + b + c + d == a + (b + c + d)
  {}

  lemma {:induction false} RenderFront(st: seq<Name>)
    requires st != []
    ensures Render(st) == [SLASH] + st[0] + Render(st[1..])
  {
    var n := |st| - 1;
    if n > 0 {
      RenderFront(st[..n]);
      assert st[..n][1..] == st[1..][..n - 1];
      Regroup([SLASH] + st[0], Render(st[1..][..n - 1]), [SLASH], st[n]);
    } else {
      assert st[..0] == [] && st[1..] == [];
    }
  }

  lemma RenderStart(st: seq<Name>)
    ensures Render(st) == [] || Render(st)[0] == SLASH
    ensures st != [] ==> Render(st) != []
  {
    if st != [] {
      RenderFront(st);
    }
  }

  lemma FirstOfSpelled(n: Name, tail: seq<byte>)
    requires CleanName(n) && (tail == [] || tail[0] == SLASH)
    ensures First([SLASH] + n + tail) == n && Rest([SLASH] + n + tail) == tail
  {
    var p := [SLASH] + n + tail;
    assert forall x :: 1 <= x < |n| + 1 ==> p[x] == n[x - 1];
    ParseIs(p, 1, |n| + 1);
    assert p[1..|n| + 1] == n && p[|n| + 1..] == tail;
  }

  /** Reading back a spelled stack gives the stack. */
  lemma {:induction false} ComponentsOfRender(st: seq<Name>)
    requires Clean(st)
    ensures Components(Render(st)) == st
    decreases |st|
  {
    hide Components, First, Rest;
    ComponentsStep(Render(st));
    if st != [] {
      RenderFront(st);
      RenderStart(st[1..]);
      FirstOfSpelled(st[0], Render(st[1..]));
      ComponentsOfRender(st[1..]);
    } else {
      ParseIs([], 0, 0);
    }
  }

  lemma ComponentsOfSpell(st: seq<Name>)
    requires Clean(st)
    ensures Components(Spell(st)) == st
  {
    ComponentsOfRender(st);
    if st == [] {
      assert [SLASH][1..] == [];
      assert SlashRun([SLASH]) == 1;
    }
  }

  /** strrchr(s, '/'). */
  function LastSlash(s: seq<byte>): (k: nat)
    requires SLASH in s
    ensures k < |s| && s[k] == SLASH && forall x :: k < x < |s| ==> s[x] != SLASH
  {
    if s[|s| - 1] == SLASH then |s| - 1 else LastSlash(s[..|s| - 1])
  }

  lemma LastOfRender(st: seq<Name>)
    requires Clean(st) && st != []
    ensures SLASH in Render(st) && LastSlash(Render(st)) == |Render(st[..|st| - 1])|
    ensures Render(st)[..LastSlash(Render(st))] == Render(st[..|st| - 1])
    ensures Render(st)[LastSlash(Render(st))..] == [SLASH] + st[|st| - 1]
  {
    var n := st[|st| - 1];
    assert CleanName(n);
    assert Render(st) == Render(st[..|st| - 1]) + ([SLASH] + n);
    LastAfter(Render(st), Render(st[..|st| - 1]), n);
  }

  lemma LastAt(s: seq<byte>, k: nat)
    requires k < |s| && s[k] == SLASH && forall x :: k < x < |s| ==> s[x] != SLASH
    ensures SLASH in s && LastSlash(s) == k
  {
    hide LastSlash;
    assert s[k] in s;
  }

  lemma Halves(s: seq<byte>, a: seq<byte>, b: seq<byte>)
    requires s == a + b
    ensures s[..|a|] == a && s[|a|..] == b
  {}

  lemma LastAfter(s: seq<byte>, front: seq<byte>, n: Name)
    requires s == front + ([SLASH] + n) && SLASH !in n
    ensures SLASH in s && LastSlash(s) == |front| && s[..|front|] == front && s[|front|..] == [SLASH] + n
  {
    hide LastSlash;
    Halves(s, front, [SLASH] + n);
    forall x | |front| < x < |s|
      ensures s[x] != SLASH
    {
      assert s[x] == n[x - |front| - 1];
    }
    LastAt(s, |front|);
  }

  /** strrchr and the cut of wash_path's ".." on a spelled stack. */
  lemma CutLast(st: seq<Name>)
    requires Normal(st)
    ensures var out := Spell(st);
            SLASH in out && Spell(Push(st, DOTDOT)) == if LastSlash(out) != 0 then out[..LastSlash(out)] else out[..1]
  {
    hide LastSlash;
    if st != [] {
      LastOfRender(st);
      RenderStart(st);
      RenderStart(st[..|st| - 1]);
    } else {
      LastAfter([SLASH], [], []);
    }
  }

  lemma AddLast(st: seq<Name>, n: Name)
    requires Normal(st) && PlainName(n)
    ensures Spell(st + [n]) == (if Spell(st) != [SLASH] then Spell(st) + [SLASH] else Spell(st)) + n
  {
    assert (st + [n])[..|st|] == st;
    if st != [] {
      SpellNotRoot(st);
    } else {
      assert Render([]) + [SLASH] + n == [SLASH] + n;
    }
  }

  lemma SpellNotRoot(st: seq<Name>)
    requires Clean(st) && st != []
    ensures |Spell(st)| > 1
  {
    RenderFront(st);
    assert CleanName(st[0]);
  }

  /** wash_path's step for one component, on the path itself. */
  method WashStep(out: seq<byte>, name: Name, ghost st: seq<Name>) returns (out': seq<byte>)
    requires Normal(st) && out == Spell(st) && CleanName(name)
    ensures Normal(Push(st, name)) && out' == Spell(Push(st, name))
  {
    hide Spell;
    out' := out;
    if name == DOTDOT {
      CutLast(st);
      var k := LastSlash(out);
      if k != 0 {
        out' := out[..k];
      } else {
        out' := out[..1];
      }
    } else if name != DOT {
      AddLast(st, name);
      if out != [SLASH] {
        out' := out' + [SLASH];
      }
      out' := out' + name;
    }
  }

  lemma ComponentsStep(p: seq<byte>)
    ensures Components(p) == if First(p) == [] then [] else [First(p)] + Components(Rest(p))
    ensures First(p) != [] ==> CleanName(First(p))
  {
    hide First, Rest;
    ParseShrinks(p);
  }

  lemma NormStep(cs: seq<Name>, k: nat)
    requires k < |cs|
    ensures Norm(cs[..k + 1]) == Push(Norm(cs[..k]), cs[k])
  {
    assert cs[..k + 1][..k] == cs[..k];
  }

  /** wash_path: the spelling of the stack normal form of the components. */
  method WashPath(old_abs_path: seq<byte>) returns (out: seq<byte>)
    requires old_abs_path != [] && old_abs_path[0] == SLASH
    ensures out == Spell(Norm(Components(old_abs_path)))
  {
    hide First, Rest, Components, Norm, Spell, Push, Normal, CleanName;
    ghost var cs := Components(old_abs_path);
    ComponentsStep(old_abs_path);
    WashNothing();
    var name, sub := PathParse(old_abs_path);
    if name == [] {
      return [SLASH];
    }
    out := [SLASH];
    ghost var k := 0;
    assert cs[..0] == [];
    while name != []
      invariant k <= |cs| && Normal(Norm(cs[..k])) && out == Spell(Norm(cs[..k]))
      invariant (name == [] || CleanName(name)) && cs[k..] == if name == [] then [] else [name] + Components(sub)
      decreases |cs| - k
    {
      assert cs[k] == cs[k..][0] == name;
      NormStep(cs, k);
      out := WashStep(out, name, Norm(cs[..k]));
      assert cs[k + 1..] == cs[k..][1..] == Components(sub);
      ComponentsStep(sub);
      name, sub := PathParse(sub);
      k := k + 1;
    }
    assert cs[..k] == cs;
  }

  lemma WashNothing()
    ensures Norm([]) == [] && Spell([]) == [SLASH] && Normal([])
  {}

  /** Washing a washed path changes nothing. */
  lemma WashIdempotent(p: seq<byte>)
    ensures var w := Spell(Norm(Components(p)));
            w[0] == SLASH && Spell(Norm(Components(w))) == w
  {
    ComponentsClean(p);
    NormIsNormal(Components(p));
    var st := Norm(Components(p));
    ComponentsOfSpell(st);
    NormOfNormal(st);
    RenderStart(st);
  }

  /** A washed path has no doubled slash, and a trailing one only when it is the root. */
  lemma {:induction false} SpelledTidily(st: seq<Name>)
    requires Normal(st)
    ensures forall i :: 0 <= i < |Spell(st)| - 1 ==> !(Spell(st)[i] == SLASH && Spell(st)[i + 1] == SLASH)
    ensures st != [] ==> Spell(st)[|Spell(st)| - 1] != SLASH
  {
    if st != [] {
      var n := |st| - 1;
      SpelledTidily(st[..n]);
      var front := Render(st[..n]);
      var s := Render(st);
      assert s == front + ([SLASH] + st[n]);
      forall i | 0 <= i < |s| - 1
        ensures !(s[i] == SLASH && s[i + 1] == SLASH)
      {
        if i >= |front| {
          assert s[i + 1] == st[n][i - |front|];
        }
      }
      assert s[|s| - 1] == st[n][|st[n]| - 1];
    }
  }

  // ---- what a path names ----

  /** The entry of a slot table with this name. */
  function Find(t: seq<DirEntry>, name: Name): (r: Option<DirEntry>)
    ensures r.None? ==> forall c :: 0 <= c < |t| ==> t[c].name != name
    ensures r.Some? ==> exists c :: 0 <= c < |t| && t[c] == r.value && r.value.name == name
  {
    if t == [] then None
    else if t[|t| - 1].name == name then Some(t[|t| - 1])
    else Find(t[..|t| - 1], name)
  }

  /** In a directory the entry is the only one of its name. */
  lemma FindIs(t: seq<DirEntry>, c: nat)
    requires SlotShape(t) && c < 2940 && Live(t[c])
    ensures Find(t, t[c].name) == Some(t[c])
  {
    var r := Find(t, t[c].name);
    var x :| 0 <= x < 2940 && t[x] == r.value && t[x].name == t[c].name;
    assert Live(t[x]);
  }

  ghost predicate Rooted(t: map<nat, seq<DirEntry>>, nodes: set<nat>, par: map<nat, (nat, nat)>) {
    TreeOk(t, nodes, par) && forall d :: d in t ==> SlotShape(t[d])
  }

  /** The inode that the components lead to from directory d, every one but the last a directory. */
  function Resolve(t: map<nat, seq<DirEntry>>, d: nat, cs: seq<Name>): Option<nat>
    decreases |cs|
  {
    if cs == [] then Some(d)
    else if d !in t then None
    else match Find(t[d], cs[0])
      case None => None
      case Some(e) => Resolve(t, e.ino, cs[1..])
  }

  lemma {:induction false} ResolveAppend(t: map<nat, seq<DirEntry>>, d: nat, a: seq<Name>, b: seq<Name>)
    ensures Resolve(t, d, a + b) == if Resolve(t, d, a).None? then None else Resolve(t, Resolve(t, d, a).value, b)
    decreases |a|
  {
    if a == [] {
      assert a + b == b;
    } else if d in t {
      assert (a + b)[1..] == a[1..] + b;
      var f := Find(t[d], a[0]);
      if f.Some? {
        ResolveAppend(t, f.value.ino, a[1..], b);
      }
    }
  }

  /** One component: "." stays, ".." goes to the parent, a name goes down. */
  lemma ResolveOne(t: map<nat, seq<DirEntry>>, nodes: set<nat>, par: map<nat, (nat, nat)>, d: nat, n: Name)
    requires Rooted(t, nodes, par) && d in t && n != [] && Resolve(t, d, [n]).Some?
    ensures n == DOT ==> Resolve(t, d, [n]) == Some(d)
    ensures n == DOTDOT ==> Resolve(t, d, [n]) == Some(ParentOf(par, d))
    ensures n != DOT && n != DOTDOT ==> Resolve(t, d, [n]).value in par && par[Resolve(t, d, [n]).value].0 == d
  {
    assert [n][1..] == [];
    FindIs(t[d], 0);
    FindIs(t[d], 1);
    var e := Find(t[d], n).value;
    assert Resolve(t, d, [n]) == Some(e.ino);
    var c :| 0 <= c < 2940 && t[d][c] == e;
    assert Live(t[d][c]);
  }

  /** Washing keeps what a path names: wherever the raw path resolves, the normal form resolves to
      the same inode. */
  lemma {:induction false} SameNode(t: map<nat, seq<DirEntry>>, nodes: set<nat>, par: map<nat, (nat, nat)>,
                                    cs: seq<Name>)
    requires Rooted(t, nodes, par) && Clean(cs) && Resolve(t, 0, cs).Some?
    ensures Resolve(t, 0, Norm(cs)) == Resolve(t, 0, cs)
  {
    hide Rooted, Find;
    if cs != [] {
      var k := |cs| - 1;
      var st, n := Norm(cs[..k]), cs[k];
      assert cs == cs[..k] + [n];
      ResolveAppend(t, 0, cs[..k], [n]);
      SameNode(t, nodes, par, cs[..k]);
      NormIsNormal(cs[..k]);
      var d := Resolve(t, 0, st).value;
      ResolveOne(t, nodes, par, d, n);
      if n == DOTDOT {
        if st == [] {
          RootHasNoParent(t, nodes, par);
        } else {
          var m := st[|st| - 1];
          assert st == st[..|st| - 1] + [m];
          ResolveAppend(t, 0, st[..|st| - 1], [m]);
          ResolveOne(t, nodes, par, Resolve(t, 0, st[..|st| - 1]).value, m);
        }
      } else if n != DOT {
        ResolveAppend(t, 0, st, [n]);
      }
    }
  }

  lemma RootHasNoParent(t: map<nat, seq<DirEntry>>, nodes: set<nat>, par: map<nat, (nat, nat)>)
    requires Rooted(t, nodes, par)
    ensures ParentOf(par, 0) == 0
  {}

  /** Every "." and ".." of the path stands after a directory. */
  ghost predicate DotsInDirectories(t: map<nat, seq<DirEntry>>, cs: seq<Name>) {
    forall k :: 0 <= k < |cs| && (cs[k] == DOT || cs[k] == DOTDOT) ==> Stands(t, cs[..k])
  }

  predicate Stands(t: map<nat, seq<DirEntry>>, cs: seq<Name>) {
    Resolve(t, 0, cs).Some? && Resolve(t, 0, cs).value in t
  }

  /** The converse holds exactly for the paths whose dots stand after directories: a raw path resolves
      if and only if its normal form does and no "." or ".." follows something else than a directory. */
  lemma {:induction false} SameNodeIff(t: map<nat, seq<DirEntry>>, nodes: set<nat>, par: map<nat, (nat, nat)>,
                                       cs: seq<Name>)
    requires Rooted(t, nodes, par) && Clean(cs)
    ensures Resolve(t, 0, cs).Some? <==> Resolve(t, 0, Norm(cs)).Some? && DotsInDirectories(t, cs)
  {
    hide Rooted, Find;
    if cs != [] {
      var k := |cs| - 1;
      var front, n := cs[..k], cs[k];
      assert cs == front + [n];
      assert forall j :: 0 <= j < k ==> cs[..j] == front[..j];
      assert cs[..k] == front;
      assert DotsInDirectories(t, cs) <==>
               DotsInDirectories(t, front) && (n == DOT || n == DOTDOT ==> Stands(t, front));
      SameNodeIff(t, nodes, par, front);
      ResolveAppend(t, 0, front, [n]);
      if Resolve(t, 0, cs).Some? {
        SameNode(t, nodes, par, cs);
      } else {
        NotResolved(t, nodes, par, front, n);
      }
    } else {
      assert DotsInDirectories(t, cs);
    }
  }

  lemma NotResolved(t: map<nat, seq<DirEntry>>, nodes: set<nat>, par: map<nat, (nat, nat)>, front: seq<Name>, n: Name)
    requires Rooted(t, nodes, par) && Clean(front) && CleanName(n) && Resolve(t, 0, front + [n]).None?
    requires Resolve(t, 0, front).Some? <==> Resolve(t, 0, Norm(front)).Some? && DotsInDirectories(t, front)
    ensures (n == DOT || n == DOTDOT) ==> !Stands(t, front)
    ensures n != DOT && n != DOTDOT && DotsInDirectories(t, front) ==> Resolve(t, 0, Norm(front) + [n]).None?
  {
    hide Rooted, Find;
    ResolveAppend(t, 0, front, [n]);
    ResolveAppend(t, 0, Norm(front), [n]);
    if Stands(t, front) {
      DotsAreThere(t, nodes, par, Resolve(t, 0, front).value);
    }
    if Resolve(t, 0, front).Some? {
      SameNode(t, nodes, par, front);
    }
  }

  lemma DotsAreThere(t: map<nat, seq<DirEntry>>, nodes: set<nat>, par: map<nat, (nat, nat)>, d: nat)
    requires Rooted(t, nodes, par) && d in t
    ensures Resolve(t, d, [DOT]).Some? && Resolve(t, d, [DOTDOT]).Some?
  {
    FindIs(t[d], 0);
    FindIs(t[d], 1);
    assert [DOT][1..] == [] && [DOTDOT][1..] == [];
  }

  /** So a missing component that ".." takes back does not resolve, and its normal
      form does. */
  lemma WashedMayResolveMore(t: map<nat, seq<DirEntry>>, n: Name)
    requires 0 in t && Find(t[0], n).None? && n != DOT && n != DOTDOT && n != []
    ensures Resolve(t, 0, [n, DOTDOT]).None? && Resolve(t, 0, Norm([n, DOTDOT])) == Some(0)
  {
    assert [n, DOTDOT][..1] == [n] && [n][..0] == [];
    assert Norm([n]) == [n] && Norm([n, DOTDOT]) == [];
  }
}
