/** Why checkSafeName lets exactly the right names through: appended to the path
    of a directory, a safe name leads one level down, to an entry of that name,
    and nothing else does. */
module LisafsNames {
  import opened LisafsTree
  import opened LisafsServer

  /** The place of the last slash. */
  function LastSlash(s: string): (i: nat)
    requires '/' in s
    ensures i < |s| && s[i] == '/' && '/' !in s[i + 1..]
  {
    if s[|s| - 1] == '/' then |s| - 1
    else
      assert s == s[..|s| - 1] + [s[|s| - 1]];
      var i := LastSlash(s[..|s| - 1]);
      assert s[i + 1..] == s[..|s| - 1][i + 1..] + [s[|s| - 1]];
      i
  }

  /** The parts of a path between slashes. */
  function Components(s: string): seq<string> {
    if '/' !in s then [s] else Components(s[..LastSlash(s)]) + [s[LastSlash(s) + 1..]]
  }

  /** One step of path resolution. */
  function Enter(at: seq<string>, c: string): seq<string> {
    if c == "" || c == "." then at
    else if c == ".." then (if at == [] then [] else at[..|at| - 1])
    else at + [c]
  }

  /** Where a list of components leads from the root. */
  function Resolve(cs: seq<string>): seq<string> {
    if cs == [] then [] else Enter(Resolve(cs[..|cs| - 1]), cs[|cs| - 1])
  }

  /** The path of a directory, as text. */
  function Text(at: seq<Name>): string {
    if at == [] then "" else Text(at[..|at| - 1]) + "/" + at[|at| - 1]
  }

  function Child(at: seq<Name>, name: Name): string {
    Text(at) + "/" + name
  }

  lemma EndsTheRest(s: string, i: nat)
    requires i + 1 < |s|
    ensures s[|s| - 1] in s[i + 1..]
  {
    assert s[i + 1..][|s| - i - 2] == s[|s| - 1];
  }

  lemma {:induction false} OneLastSlash(s: string, i: nat)
    requires i < |s| && s[i] == '/' && '/' !in s[i + 1..]
    ensures LastSlash(s) == i
  {
    if i + 1 < |s| {
      EndsTheRest(s, i);
      var t := s[..|s| - 1];
      assert t[i + 1..] == s[i + 1..][..|s| - i - 2];
      OneLastSlash(t, i);
    }
  }

  lemma LastPart(u: string, name: string)
    requires '/' !in name
    ensures Components(u + "/" + name) == Components(u) + [name]
  {
    var s := u + "/" + name;
    assert s[|u|] == '/' && s[|u| + 1..] == name && s[..|u|] == u;
    OneLastSlash(s, |u|);
  }

  lemma ResolveSnoc(cs: seq<string>, c: string)
    ensures Resolve(cs + [c]) == Enter(Resolve(cs), c)
  {
    assert (cs + [c])[..|cs|] == cs;
  }

  lemma {:induction false} TextResolves(at: seq<Name>)
    requires forall k <- at :: SafeName(k)
    ensures Resolve(Components(Text(at))) == at
  {
    if at == [] {
      ResolveSnoc([], "");
      assert [""] == [] + [""];
    } else {
      var n := |at| - 1;
      TextResolves(at[..n]);
      assert at[n] in at;
      LastPart(Text(at[..n]), at[n]);
      ResolveSnoc(Components(Text(at[..n])), at[n]);
      assert at == at[..n] + [at[n]];
    }
  }

  lemma {:induction false} NoSlashes(s: string)
    ensures forall c <- Components(s) :: '/' !in c
  {
    if '/' in s {
      NoSlashes(s[..LastSlash(s)]);
    }
  }

  lemma {:induction false} ResolvedParts(cs: seq<string>)
    ensures forall c <- Resolve(cs) :: c in cs
  {
    if cs != [] {
      var n := |cs| - 1;
      ResolvedParts(cs[..n]);
      assert cs == cs[..n] + [cs[n]];
      var before := Resolve(cs[..n]);
      forall c <- Resolve(cs)
        ensures c in cs
      {
        assert c in before || c == cs[n];
      }
    }
  }

  /** A name is safe if and only if, after the path of a directory, it leads to the
      entry of that name in the directory. */
  lemma SafeNameIff(at: seq<Name>, name: Name)
    requires forall k <- at :: SafeName(k)
    ensures SafeName(name) <==> Resolve(Components(Child(at, name))) == at + [name]
  {
    if '/' in name {
      NoSlashes(Child(at, name));
      ResolvedParts(Components(Child(at, name)));
      assert name in at + [name];
    } else {
      LastPart(Text(at), name);
      ResolveSnoc(Components(Text(at)), name);
      TextResolves(at);
    }
  }

  lemma {:induction false} JoinSnoc(p: seq<Name>, c: Name)
    ensures Join(p + [c]) == if p == [] then c else Join(p) + "/" + c
  {
    if p == [] {
      assert p + [c] == [c];
    } else {
      assert p == [p[0]] + p[1..] && p + [c] == [p[0]] + (p[1..] + [c]);
      JoinCons(p[0], p[1..] + [c]);
      JoinCons(p[0], p[1..]);
      JoinSnoc(p[1..], c);
    }
  }

  lemma {:induction false} RenderIsText(p: seq<Name>)
    requires p != []
    ensures Render(p) == Text(p)
  {
    var n := |p| - 1;
    assert p == p[..n] + [p[n]];
    JoinSnoc(p[..n], p[n]);
    if n > 0 {
      RenderIsText(p[..n]);
    }
  }

  /** What FilePath returns for a node resolves to the path of the node. */
  lemma FilePathResolves(p: seq<Name>)
    requires forall k <- p :: SafeName(k)
    ensures Resolve(Components(Render(p))) == p
  {
    if p == [] {
      JoinNone();
      assert Render(p) == "" + "/" + "";
      LastPart("", "");
      assert Components("") == [] + [""];
      ResolveSnoc([], "");
      ResolveSnoc(Components(""), "");
    } else {
      RenderIsText(p);
      TextResolves(p);
    }
  }
}
