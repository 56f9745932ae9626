/** Store keys built as an address in text form, a slash and a name. */
module Keys {
  import A = Address

  predicate NoSlash(s: string) { '/' !in s }

  function Under(root: string, owner: A.Id, name: string): string {
    root + (A.ToText(owner) + ("/" + name))
  }

  lemma TextHasNoSlash(a: A.Id)
    ensures NoSlash(A.ToText(a))
  {
    A.TextAlphabet(a);
    hide A.ToText;
  }

  /** A slash-free head determines where the first slash of a longer string is. */
  lemma {:induction false} HeadsAgree(a: string, x: string, b: string, y: string)
    requires NoSlash(a) && NoSlash(b) && a + ("/" + x) <= b + ("/" + y)
    ensures a == b && x <= y
  {
    var s, t := a + ("/" + x), b + ("/" + y);
    assert s[|a|] == '/' && t[|b|] == '/';
    assert |a| == |b|;
    assert a == s[..|a|] == t[..|a|] == b;
    assert x == s[|a| + 1..] && y == t[|a| + 1..];
    assert s == t[..|s|];
    assert x == t[..|s|][|a| + 1..] == y[..|x|];
  }

  lemma Drop(root: string, x: string, y: string)
    ensures root + x <= root + y <==> x <= y
  {
    assert x == (root + x)[|root|..] && y == (root + y)[|root|..];
    if root + x <= root + y {
      assert root + x == (root + y)[..|root + x|];
      assert x == y[..|x|];
    }
    if x <= y {
      assert root + x == (root + y)[..|root + x|];
    }
  }

  /** A longer name gives a longer key. */
  lemma UnderMore(root: string, o: A.Id, name: string, more: string)
    ensures Under(root, o, name + more) == Under(root, o, name) + more
  {
    hide A.ToText;
    FourParts(root, A.ToText(o), name, more);
  }

  lemma FourParts(root: string, a: string, name: string, more: string)
    ensures root + (a + ("/" + (name + more))) == (root + (a + ("/" + name))) + more
  {
  }

  /** One key is a prefix of another just when the owners agree and the name is a prefix. */
  lemma UnderPrefix(root: string, o: A.Id, s: string, p: A.Id, t: string)
    ensures Under(root, o, s) <= Under(root, p, t) <==> o == p && s <= t
  {
    var a, b := A.ToText(o), A.ToText(p);
    TextHasNoSlash(o);
    TextHasNoSlash(p);
    Drop(root, a + ("/" + s), b + ("/" + t));
    if a + ("/" + s) <= b + ("/" + t) {
      HeadsAgree(a, s, b, t);
      A.TextInjective(o, p);
    }
    if o == p && s <= t {
      Drop("/", s, t);
      Drop(a, "/" + s, "/" + t);
    }
  }

  /** Different owners or names never share a key. */
  lemma UnderInjective(root: string, o: A.Id, s: string, p: A.Id, t: string)
    ensures Under(root, o, s) == Under(root, p, t) <==> o == p && s == t
  {
    if Under(root, o, s) == Under(root, p, t) {
      UnderPrefix(root, o, s, p, t);
      UnderPrefix(root, p, t, o, s);
    }
  }
}
