/** Qualified loop names: a derived name is its parent's name, a dot and an unqualified name. */
module Names {

  predicate EndsWith(s: string, suffix: string) {
    |suffix| <= |s| && s[|s| - |suffix|..] == suffix
  }

  /** `candidate` is `name` itself or ends in a dot and `name`. */
  predicate VarNameMatch(candidate: string, name: string) {
    candidate == name || EndsWith(candidate, "." + name)
  }

  predicate Unqualified(name: string) {
    name != [] && forall i :: 0 <= i < |name| ==> name[i] != '.'
  }

  function Qualify(parent: string, name: string): (r: string)
    ensures |r| == |parent| + 1 + |name|
    ensures r[..|parent|] == parent && r[|parent|] == '.'
    ensures forall i :: 0 <= i < |name| ==> r[|parent| + 1 + i] == name[i]
  {
    parent + "." + name
  }

  /** A plain name refers to the derived names that end in it. */
  lemma MatchQualified(parent: string, last: string, name: string)
    requires Unqualified(last) && Unqualified(name)
    ensures VarNameMatch(Qualify(parent, last), name) <==> last == name
  {
    var q := Qualify(parent, last);
    assert q != name by {
      assert q[|parent|] == '.';
    }
    assert forall i :: |parent| < i < |q| ==> q[i] != '.';
    if EndsWith(q, "." + name) {
      var j := |q| - |name| - 1;
      assert forall i :: 0 <= i < |name| + 1 ==> q[j + i] == q[j..][i] == ("." + name)[i];
      assert q[j] == '.' && forall i :: 0 <= i < |name| ==> q[j + 1 + i] == name[i];
      assert j == |parent|;
      assert forall i :: 0 <= i < |name| ==> name[i] == last[i];
    }
    if last == name {
      assert q[|q| - |name| - 1..] == "." + name;
    }
  }

  /** `name` was built by qualifying `ancestor` once or more. */
  predicate Extends(name: string, ancestor: string) {
    |ancestor| < |name| && name[..|ancestor|] == ancestor && name[|ancestor|] == '.'
  }

  lemma QualifyExtends(parent: string, name: string)
    ensures Extends(Qualify(parent, name), parent)
  {
  }

  /** The only ancestors of a derived name are its parent and its parent's ancestors. */
  lemma AncestorsOfQualified(parent: string, name: string, ancestor: string)
    requires Unqualified(name)
    ensures Extends(Qualify(parent, name), ancestor) ==> ancestor == parent || Extends(parent, ancestor)
  {
    var q := Qualify(parent, name);
    if |parent| < |ancestor| < |q| {
      assert q[|ancestor|] == name[|ancestor| - |parent| - 1] != '.';
    } else if Extends(q, ancestor) {
      assert ancestor == q[..|ancestor|] == parent[..|ancestor|];
      if |ancestor| < |parent| {
        assert parent[|ancestor|] == q[..|parent|][|ancestor|] == q[|ancestor|];
      }
    }
  }

  lemma ExtendsTransitive(a: string, b: string, c: string)
    requires Extends(a, b) && Extends(b, c)
    ensures Extends(a, c)
  {
    assert a[..|c|] == a[..|b|][..|c|];
    assert a[|c|] == a[..|b|][|c|];
  }

  /** The position of the first name that `name` refers to, or the length of the list. */
  function FirstMatch(names: seq<string>, name: string): (i: nat)
    ensures i <= |names|
    ensures i < |names| ==> VarNameMatch(names[i], name)
    ensures forall j :: 0 <= j < i ==> !VarNameMatch(names[j], name)
  {
    if names == [] || VarNameMatch(names[0], name) then 0 else 1 + FirstMatch(names[1..], name)
  }
}
