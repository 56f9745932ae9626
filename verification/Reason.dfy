/**
 * The text of an error: its message with `{name}` replaced by arguments and doubled braces
 * halved. A field is a brace, characters that are neither a closing brace nor white space, and a
 * closing brace; at each place a doubled brace is looked for first.
 */
module Reason {
  import opened Wrappers

  type Space = char -> bool

  /** The place of the first closing brace or white space, or the end. */
  function Stop(space: Space, m: string): (n: nat)
    ensures n <= |m| && (n < |m| ==> m[n] == '}' || space(m[n]))
    ensures forall i :: 0 <= i < n ==> m[i] != '}' && !space(m[i])
  {
    if m == "" || m[0] == '}' || space(m[0]) then 0 else 1 + Stop(space, m[1..])
  }

  /** The length of what the pattern matches at the start, if it does. */
  function MatchLength(space: Space, m: string): (n: Option<nat>)
    ensures n.Some? ==> 2 <= n.value <= |m|
  {
    if "{{" <= m || "}}" <= m then Some(2)
    else if m != "" && m[0] == '{' then
      var n := Stop(space, m[1..]);
      if n < |m| - 1 && m[1 + n] == '}' then Some(n + 2) else None
    else None
  }

  /** A brace, characters that are neither a closing brace nor white space, and a closing brace. */
  predicate Braced(space: Space, f: string) {
    && |f| >= 2 && f[0] == '{' && f[|f| - 1] == '}'
    && forall i :: 0 < i < |f| - 1 ==> f[i] != '}' && !space(f[i])
  }

  /** The pattern matches a doubled brace, or else a field in braces, and nothing besides. */
  lemma MatchIff(space: Space, m: string, n: nat)
    requires n <= |m|
    ensures MatchLength(space, m) == Some(n) <==>
            || m[..n] == "{{" || m[..n] == "}}"
            || (!("{{" <= m) && !("}}" <= m) && Braced(space, m[..n]))
  {
    assert "{{" <= m <==> |m| >= 2 && m[..2] == "{{";
    assert "}}" <= m <==> |m| >= 2 && m[..2] == "}}";
    if !("{{" <= m) && !("}}" <= m) && m != "" && m[0] == '{' {
      var stop := Stop(space, m[1..]);
      assert forall i :: 0 <= i < |m| - 1 ==> m[1..][i] == m[i + 1];
      if Braced(space, m[..n]) {
        assert m[1..][n - 2] == '}';
        if space('}') || stop != n - 2 {
          assert stop <= n - 2;
        }
      }
    }
  }

  function Argument(args: map<string, string>, name: string): string {
    if name in args then args[name] else ""
  }

  /** What replaces a match. */
  function Replacement(args: map<string, string>, found: string): string
    requires |found| >= 2
  {
    if found == "{{" then "{"
    else if found == "}}" then "}"
    else Argument(args, found[1..|found| - 1])
  }

  function Format(space: Space, args: map<string, string>, m: string): string
    decreases |m|
  {
    if m == "" then ""
    else
      var n := MatchLength(space, m);
      if n.Some? then Replacement(args, m[..n.value]) + Format(space, args, m[n.value..])
      else [m[0]] + Format(space, args, m[1..])
  }

  // -------------------------------------------------------------------------------------------
  // Templates
  // -------------------------------------------------------------------------------------------

  datatype Piece = Literal(text: string) | Field(name: string)

  /** A name the pattern can match: no closing brace, no white space, no opening brace in front. */
  predicate Plain(space: Space, name: string) {
    && (forall i :: 0 <= i < |name| ==> name[i] != '}' && !space(name[i]))
    && (name != "" ==> name[0] != '{')
  }

  function Escape(s: string): string {
    if s == "" then ""
    else (if s[0] == '{' || s[0] == '}' then [s[0], s[0]] else [s[0]]) + Escape(s[1..])
  }

  function Render(p: Piece): string {
    match p
    case Literal(text) => Escape(text)
    case Field(name) => "{" + name + "}"
  }

  function RenderAll(ps: seq<Piece>): string {
    if ps == [] then "" else Render(ps[0]) + RenderAll(ps[1..])
  }

  function Meaning(args: map<string, string>, ps: seq<Piece>): string {
    if ps == [] then ""
    else
      var shown :=
        match ps[0]
        case Literal(text) => text
        case Field(name) => if name in args then args[name] else "";
      shown + Meaning(args, ps[1..])
  }

  lemma StopAt(space: Space, name: string, rest: string)
    requires forall i :: 0 <= i < |name| ==> name[i] != '}' && !space(name[i])
    ensures Stop(space, name + "}" + rest) == |name|
  {
    var m := name + "}" + rest;
    assert m[|name|] == '}';
    assert forall i :: 0 <= i < |name| ==> m[i] == name[i];
  }

  lemma FieldMatches(space: Space, name: string, rest: string)
    requires Plain(space, name)
    ensures MatchLength(space, "{" + name + "}" + rest) == Some(|name| + 2)
  {
    var m := "{" + name + "}" + rest;
    StopAt(space, name, rest);
    hide Stop;
    assert m[1..] == name + "}" + rest;
    assert m[0] == '{' && m[1] == (name + "}")[0];
    assert m[1 + |name|] == '}';
  }

  lemma FieldFormats(space: Space, args: map<string, string>, name: string, rest: string)
    requires Plain(space, name)
    ensures Format(space, args, "{" + name + "}" + rest) == Argument(args, name) + Format(space, args, rest)
  {
    var m := "{" + name + "}" + rest;
    FieldMatches(space, name, rest);
    hide MatchLength;
    assert m[..|name| + 2] == "{" + name + "}" && m[|name| + 2..] == rest;
    assert ("{" + name + "}")[1..|name| + 1] == name;
    assert m[..|name| + 2] != "{{" && m[..|name| + 2] != "}}" by {
      assert m[0] == '{' && m[1] == (name + "}")[0];
    }
  }

  lemma {:induction false} LiteralFormats(space: Space, args: map<string, string>, text: string, rest: string)
    ensures Format(space, args, Escape(text) + rest) == text + Format(space, args, rest)
  {
    hide Format;
    if text == "" {
      assert Escape(text) + rest == rest;
      assert text + Format(space, args, rest) == Format(space, args, rest);
    } else {
      var tail := Escape(text[1..]) + rest;
      LiteralFormats(space, args, text[1..], rest);
      CharFormats(space, args, text[0], tail);
      assert Escape(text) == Escaped(text[0]) + Escape(text[1..]);
      hide Escape, Escaped;
      Regroup(Escaped(text[0]), Escape(text[1..]), rest);
      assert text == [text[0]] + text[1..];
      Regroup([text[0]], text[1..], Format(space, args, rest));
    }
  }

  lemma Regroup(a: string, b: string, c: string)
    ensures (a + b) + c == a + (b + c)
  {
  }

  function Escaped(c: char): string { if c == '{' || c == '}' then [c, c] else [c] }

  lemma CharFormats(space: Space, args: map<string, string>, c: char, tail: string)
    ensures Format(space, args, Escaped(c) + tail) == [c] + Format(space, args, tail)
  {
    var m := Escaped(c) + tail;
    if c == '{' || c == '}' {
      assert m[..2] == [c, c] && m[2..] == tail;
      assert MatchLength(space, m) == Some(2);
    } else {
      assert m[0] == c && m[1..] == tail;
    }
  }

  predicate PlainFields(space: Space, ps: seq<Piece>) {
    forall i :: 0 <= i < |ps| && ps[i].Field? ==> Plain(space, ps[i].name)
  }

  /** Formatting what a list of literals and plain fields renders to gives what the list means. */
  lemma {:induction false} FormatRendered(space: Space, args: map<string, string>, ps: seq<Piece>)
    requires PlainFields(space, ps)
    ensures Format(space, args, RenderAll(ps)) == Meaning(args, ps)
  {
    hide Format, Plain;
    if ps == [] {
      FormatNothing(space, args);
    } else {
      assert PlainFields(space, ps[1..]);
      FormatRendered(space, args, ps[1..]);
      match ps[0]
      case Literal(text) => LiteralFormats(space, args, text, RenderAll(ps[1..]));
      case Field(name) => FieldFormats(space, args, name, RenderAll(ps[1..]));
    }
  }

  lemma FormatNothing(space: Space, args: map<string, string>)
    ensures Format(space, args, "") == ""
  {
  }

  /** In particular an escaped string stands for itself. */
  lemma FormatEscaped(space: Space, args: map<string, string>, s: string)
    ensures Format(space, args, Escape(s)) == s
  {
    LiteralFormats(space, args, s, "");
    assert Escape(s) + "" == Escape(s);
    assert s + Format(space, args, "") == s;
  }

  // -------------------------------------------------------------------------------------------
  // Exactly the plain names
  // -------------------------------------------------------------------------------------------

  /** Every field the pattern matches has a plain name. */
  lemma MatchedIsPlain(space: Space, m: string)
    requires MatchLength(space, m).Some? && m[..MatchLength(space, m).value] != "{{" &&
             m[..MatchLength(space, m).value] != "}}"
    ensures Plain(space, m[1..MatchLength(space, m).value - 1])
  {
    var n := MatchLength(space, m).value;
    assert !("{{" <= m) && !("}}" <= m);
    var name := m[1..n - 1];
    assert forall i :: 0 <= i < |name| ==> name[i] == m[1..][i];
    assert m[1] != '{' || "{{" <= m;
  }

  /** Arguments under other names are never looked at. */
  lemma {:induction false} OnlyPlainNames(space: Space, args: map<string, string>, other: map<string, string>,
      m: string)
    requires forall name :: Plain(space, name) ==> Argument(args, name) == Argument(other, name)
    ensures Format(space, args, m) == Format(space, other, m)
    decreases |m|
  {
    hide MatchLength, Plain, Argument;
    if m == "" {
    } else {
      var n := MatchLength(space, m);
      if n.Some? {
        OnlyPlainNames(space, args, other, m[n.value..]);
        if m[..n.value] != "{{" && m[..n.value] != "}}" {
          MatchedIsPlain(space, m);
          assert m[..n.value][1..n.value - 1] == m[1..n.value - 1];
        }
      } else {
        OnlyPlainNames(space, args, other, m[1..]);
      }
    }
  }

  /** A field shows its argument, whatever that is, just when its name is plain. */
  lemma FieldShownIff(space: Space, name: string)
    ensures (forall value :: Format(space, map[name := value], "{" + name + "}") == value) <==> Plain(space, name)
  {
    hide Format, Plain;
    var m := "{" + name + "}";
    if Plain(space, name) {
      forall value ensures Format(space, map[name := value], m) == value {
        assert m + "" == m;
        FieldFormats(space, map[name := value], name, "");
        FormatNothing(space, map[name := value]);
        assert value + "" == value;
      }
    } else {
      var none, some := map[name := ""], map[name := "x"];
      assert forall other :: Plain(space, other) ==> other != name;
      OnlyPlainNames(space, none, some, m);
    }
  }

  // -------------------------------------------------------------------------------------------
  // The formatter
  // -------------------------------------------------------------------------------------------

  /** Where the next match starts, at or after a place, or the end of the message. */
  method FindMatch(space: Space, m: string, from: nat) returns (start: nat)
    requires from <= |m|
    ensures from <= start <= |m|
    ensures start < |m| ==> MatchLength(space, m[start..]).Some?
    ensures forall i :: from <= i < start ==> MatchLength(space, m[i..]).None?
  {
    hide MatchLength;
    start := from;
    while start < |m| && MatchLength(space, m[start..]).None?
      invariant from <= start <= |m|
      invariant forall i :: from <= i < start ==> MatchLength(space, m[i..]).None?
    {
      start := start + 1;
    }
  }

  /** Characters no match begins at are copied. */
  lemma {:induction false} Copied(space: Space, args: map<string, string>, m: string, from: nat, to: nat)
    requires from <= to <= |m| && forall i :: from <= i < to ==> MatchLength(space, m[i..]).None?
    ensures Format(space, args, m[from..]) == m[from..to] + Format(space, args, m[to..])
    decreases |m| - from
  {
    hide MatchLength, Format;
    if from < to {
      Copied(space, args, m, from + 1, to);
      CopiedOne(space, args, m, from);
      ghost var rest := Format(space, args, m[to..]);
      assert m[from..to] == [m[from]] + m[from + 1..to];
      assert [m[from]] + (m[from + 1..to] + rest) == ([m[from]] + m[from + 1..to]) + rest;
    } else {
      assert m[from..to] == "";
    }
  }

  lemma CopiedOne(space: Space, args: map<string, string>, m: string, from: nat)
    requires from < |m| && MatchLength(space, m[from..]).None?
    ensures Format(space, args, m[from..]) == [m[from]] + Format(space, args, m[from + 1..])
  {
    hide MatchLength;
    assert m[from..][0] == m[from] && m[from..][1..] == m[from + 1..];
  }

  method Display(space: Space, args: map<string, string>, m: string) returns (out: string)
    ensures out == Format(space, args, m)
  {
    hide Format, MatchLength, Replacement;
    out := "";
    var current := 0;
    var start := FindMatch(space, m, 0);
    assert m[0..] == m;
    while start < |m|
      invariant current <= start <= |m|
      invariant start < |m| ==> MatchLength(space, m[start..]).Some?
      invariant forall i :: current <= i < start ==> MatchLength(space, m[i..]).None?
      invariant out + Format(space, args, m[current..]) == Format(space, args, m)
      decreases |m| - start
    {
      var end := start + MatchLength(space, m[start..]).value;
      var found := m[start..end];
      Copied(space, args, m, current, start);
      OneMatch(space, args, m, start, end);
      ghost var rest := Format(space, args, m[end..]);
      assert out + (m[current..start] + (Replacement(args, found) + rest)) ==
             (out + m[current..start] + Replacement(args, found)) + rest;
      out := out + m[current..start];
      out := out + Replacement(args, found);
      current := end;
      start := FindMatch(space, m, current);
    }
    Copied(space, args, m, current, |m|);
    assert m[|m|..] == "";
    FormatNothing(space, args);
    assert out + (m[current..] + "") == out + m[current..];
    assert m[current..|m|] == m[current..];
    out := out + m[current..];
  }

  lemma OneMatch(space: Space, args: map<string, string>, m: string, start: nat, end: nat)
    requires start < |m| && MatchLength(space, m[start..]).Some? && end == start + MatchLength(space, m[start..]).value
    ensures Format(space, args, m[start..]) == Replacement(args, m[start..end]) + Format(space, args, m[end..])
  {
    hide MatchLength, Replacement;
    assert m[start..][..end - start] == m[start..end] && m[start..][end - start..] == m[end..];
  }
}
