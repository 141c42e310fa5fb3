/** The one-time migration of format steps from single to double braces, in
    backend/src/config/index.ts.

    The old syntax writes a variable as {name} and literal braces doubled; the new syntax
    writes {{name}} and literals as they are. */
module FormatMigration {
  import opened Text

  // ---------------------------------------------------------------- variable names

  predicate Ws(c: char) { c == ' ' || c == '\t' || c == '\n' || c == '\r' }

  predicate Word(c: char) { 'A' <= c <= 'Z' || 'a' <= c <= 'z' || '0' <= c <= '9' || c == '_' }

  predicate Inner(c: char) { Word(c) || c == '.' || c == ' ' || c == '-' }

  /** The migration's pattern: white space, a word character, inner characters, white space. */
  predicate NameSplit(v: string, i: nat, j: nat) {
    && i < j <= |v|
    && (forall k | 0 <= k < i :: Ws(v[k]))
    && Word(v[i])
    && (forall k | i < k < j :: Inner(v[k]))
    && (forall k | j <= k < |v| :: Ws(v[k]))
  }

  predicate NameOk(v: string) {
    exists i, j | 0 <= i <= |v| && 0 <= j <= |v| :: NameSplit(v, i, j)
  }

  lemma NameHasNoBrace(v: string)
    requires NameOk(v)
    ensures v != "" && '{' !in v && '}' !in v
  {
    var i, j :| 0 <= i <= |v| && 0 <= j <= |v| && NameSplit(v, i, j);
    forall c | c in v ensures c != '{' && c != '}' {
      var k :| 0 <= k < |v| && v[k] == c;
    }
  }

  /** What is left of a name after its first word character: name characters, then white space
      in which no name character but the space occurs. */
  predicate NameRest(v: string) {
    if v == "" then true
    else if 'A' <= v[0] <= 'Z' || 'a' <= v[0] <= 'z' || '0' <= v[0] <= '9' || v[0] in {'_', '.', ' ', '-'} then
      NameRest(v[1..])
    else AllWs(v)
  }

  predicate AllWs(v: string) { forall c | c in v :: c == ' ' || c == '\t' || c == '\n' || c == '\r' }

  /** A name, read from left to right: white space, a letter, digit or underscore, and the rest. */
  predicate NameRead(v: string) {
    if v == "" then false
    else if v[0] in {' ', '\t', '\n', '\r'} then NameRead(v[1..])
    else ('A' <= v[0] <= 'Z' || 'a' <= v[0] <= 'z' || '0' <= v[0] <= '9' || v[0] == '_') && NameRest(v[1..])
  }

  predicate RestSplit(v: string, j: nat) {
    j <= |v| && (forall k | 0 <= k < j :: Inner(v[k])) && (forall k | j <= k < |v| :: Ws(v[k]))
  }

  lemma {:induction false} NameRestIff(v: string)
    ensures NameRest(v) <==> exists j: nat :: RestSplit(v, j)
  {
    if v == "" {
      assert RestSplit(v, 0);
    } else if Inner(v[0]) {
      NameRestIff(v[1..]);
      if NameRest(v) {
        var j: nat :| RestSplit(v[1..], j);
        assert RestSplit(v, j + 1);
      }
      if j: nat :| RestSplit(v, j) {
        if j > 0 {
          assert RestSplit(v[1..], j - 1);
        } else {
          assert forall k | 0 <= k < |v[1..]| :: Ws(v[1..][k]) by {
            assert forall k | 0 <= k < |v[1..]| :: v[1..][k] == v[k + 1];
          }
          assert RestSplit(v[1..], 0);
        }
      }
    } else {
      if AllWs(v) { assert RestSplit(v, 0) by { assert forall k | 0 <= k < |v| :: v[k] in v; } }
      if j: nat :| RestSplit(v, j) { assert j == 0; }
    }
  }

  /** The migration's pattern accepts exactly the names so read. */
  lemma {:induction false} NameOkIff(v: string)
    ensures NameOk(v) <==> NameRead(v)
  {
    if v != "" {
      var rest := v[1..];
      assert forall k | 0 <= k < |rest| :: rest[k] == v[k + 1];
      if Ws(v[0]) {
        NameOkIff(rest);
        if NameOk(v) {
          var i, j :| 0 <= i <= |v| && 0 <= j <= |v| && NameSplit(v, i, j);
          assert NameSplit(rest, i - 1, j - 1);
        }
        if NameOk(rest) {
          var i, j :| 0 <= i <= |rest| && 0 <= j <= |rest| && NameSplit(rest, i, j);
          assert NameSplit(v, i + 1, j + 1);
        }
      } else {
        NameRestIff(rest);
        if NameOk(v) {
          var i, j :| 0 <= i <= |v| && 0 <= j <= |v| && NameSplit(v, i, j);
          assert i == 0 && RestSplit(rest, j - 1);
        }
        if Word(v[0]) && NameRest(rest) {
          var j: nat :| RestSplit(rest, j);
          assert NameSplit(v, 0, j + 1);
        }
      }
    }
  }

  // ---------------------------------------------------------------- tokens

  /** The pieces the translator cuts a string into. */
  datatype Token =
    | EscapedOpen                  // {{
    | EscapedClose                 // }}
    | Variable(name: string)       // {name}
    | Group(text: string)          // {text}, where text is not a name
    | Unclosed(text: string)       // an opening brace that is never closed, to the end
    | Plain(c: char)

  function OldToken(t: Token): string {
    match t
    case EscapedOpen => "{{"
    case EscapedClose => "}}"
    case Variable(name) => "{" + name + "}"
    case Group(text) => "{" + text + "}"
    case Unclosed(text) => text
    case Plain(c) => [c]
  }

  function NewToken(t: Token): string {
    match t
    case EscapedOpen => "{"
    case EscapedClose => "}"
    case Variable(name) => "{{" + name + "}}"
    case Group(text) => "{" + text + "}"
    case Unclosed(text) => text
    case Plain(c) => [c]
  }

  function OldTokens(ts: seq<Token>): string {
    if ts == [] then "" else OldToken(ts[0]) + OldTokens(ts[1..])
  }

  function NewTokens(ts: seq<Token>): string {
    if ts == [] then "" else NewToken(ts[0]) + NewTokens(ts[1..])
  }

  /** The token at the front of a non-empty string. */
  function First(s: string): (t: Token)
    requires s != ""
    ensures OldToken(t) != "" && OldToken(t) <= s
  {
    if s[0] == '{' && |s| > 1 && s[1] == '{' then EscapedOpen
    else if s[0] == '{' then
      var closing := IndexOf(s[1..], '}');
      if closing < 0 then Unclosed(s)
      else
        var text := s[1..][..closing];
        assert "{" + text + "}" == s[..closing + 2];
        if NameOk(text) then Variable(text) else Group(text)
    else if s[0] == '}' && |s| > 1 && s[1] == '}' then EscapedClose
    else Plain(s[0])
  }

  function Tokens(s: string): seq<Token>
    decreases |s|
  {
    if s == "" then [] else [First(s)] + Tokens(s[|OldToken(First(s))|..])
  }

  /** What the migration makes of a format string. */
  function Rewritten(s: string): string { NewTokens(Tokens(s)) }

  /** Cutting loses nothing: for every string the tokens, written in the old syntax, are the
      string.  The translation therefore changes exactly the escapes and the variables. */
  lemma {:induction false} TokensLossless(s: string)
    ensures OldTokens(Tokens(s)) == s
    decreases |s|
  {
    if s != "" {
      var t := First(s);
      var rest := s[|OldToken(t)|..];
      TokensLossless(rest);
      hide First, Tokens;
      TokensUnfold(s);
      assert ([t] + Tokens(rest))[1..] == Tokens(rest);
      assert s == OldToken(t) + rest;
    }
  }

  lemma TokensUnfold(s: string)
    requires s != ""
    ensures Tokens(s) == [First(s)] + Tokens(s[|OldToken(First(s))|..])
  {
  }

  lemma RewrittenStep(s: string)
    requires s != ""
    ensures Rewritten(s) == NewToken(First(s)) + Rewritten(s[|OldToken(First(s))|..])
  {
    hide First, Tokens;
    TokensUnfold(s);
    var rest := Tokens(s[|OldToken(First(s))|..]);
    assert ([First(s)] + rest)[1..] == rest;
  }

  method Rewrite(format: string) returns (rewritten: string)
    ensures rewritten == Rewritten(format)
  {
    hide Rewritten, NameOk;
    rewritten := "";
    var idx := 0;
    var total := |format|;
    assert format[0..] == format && "" + Rewritten(format) == Rewritten(format);
    while idx < total
      invariant 0 <= idx <= total
      invariant rewritten + Rewritten(format[idx..]) == Rewritten(format)
    {
      ghost var s, before := format[idx..], rewritten;
      RewrittenStep(s);
      ghost var t := First(s);
      var ch := format[idx];
      var next := if idx < total - 1 then Some(format[idx + 1]) else None;
      var step;
      if ch == '{' && next == Some('{') {
        rewritten := rewritten + "{";
        step := 2;
      } else if ch == '{' {
        assert s[1..] == format[idx + 1..];
        var closing := IndexOf(format[idx + 1..], '}');
        if closing > -1 {
          var variable := format[idx + 1..][..closing];
          if NameOk(variable) {
            rewritten := rewritten + ("{{" + variable + "}}");
          } else {
            rewritten := rewritten + ("{" + variable + "}");
          }
          step := closing + 2;
        } else {
          rewritten := rewritten + format[idx..];
          step := total - idx;
        }
      } else if ch == '}' && next == Some('}') {
        rewritten := rewritten + "}";
        step := 2;
      } else {
        rewritten := rewritten + [ch];
        step := 1;
      }
      assert rewritten == before + NewToken(t) && step == |OldToken(t)|;
      Assoc(before, NewToken(t), Rewritten(s[step..]));
      assert s[step..] == format[idx + step..];
      idx := idx + step;
    }
    RewrittenNone();
    assert format[idx..] == "" && rewritten + "" == rewritten;
  }

  lemma RewrittenNone()
    ensures Rewritten("") == ""
  {
  }

  // ---------------------------------------------------------------- templates

  datatype Part = Literal(text: string) | Hole(name: string)

  predicate PartsOk(parts: seq<Part>) {
    forall i | 0 <= i < |parts| && parts[i].Hole? :: NameOk(parts[i].name)
  }

  function Doubled(text: string): string {
    if text == "" then ""
    else (if text[0] == '{' || text[0] == '}' then [text[0], text[0]] else [text[0]]) + Doubled(text[1..])
  }

  function OldTemplate(parts: seq<Part>): string {
    if parts == [] then ""
    else
      (match parts[0] case Literal(text) => Doubled(text) case Hole(name) => "{" + name + "}")
      + OldTemplate(parts[1..])
  }

  function NewTemplate(parts: seq<Part>): string {
    if parts == [] then ""
    else
      (match parts[0] case Literal(text) => text case Hole(name) => "{{" + name + "}}")
      + NewTemplate(parts[1..])
  }

  lemma FirstVariable(name: string, rest: string)
    requires NameOk(name)
    ensures First("{" + name + "}" + rest) == Variable(name)
  {
    NameHasNoBrace(name);
    hide NameOk;
    var s := "{" + name + "}" + rest;
    assert s[1..] == name + ['}'] + rest;
    IndexOfAfter(name, '}', rest);
    assert name[0] in name;
  }

  /** A literal in the old syntax is translated to itself, whatever follows it. */
  lemma {:induction false} RewriteLiteral(text: string, rest: string)
    ensures Rewritten(Doubled(text) + rest) == text + Rewritten(rest)
  {
    hide Rewritten;
    if text == "" {
      assert "" + rest == rest && "" + Rewritten(rest) == Rewritten(rest);
    } else {
      var c, tail := text[0], text[1..];
      var head := if c == '{' || c == '}' then [c, c] else [c];
      var after := Doubled(tail) + rest;
      assert Doubled(text) + rest == head + after;
      RewriteLiteral(tail, rest);
      RewrittenStep(head + after);
      assert (head + after)[|head|..] == after;
      assert text == [c] + tail;
      Assoc([c], tail, Rewritten(rest));
    }
  }

  lemma RewriteHole(name: string, rest: string)
    requires NameOk(name)
    ensures Rewritten("{" + name + "}" + rest) == "{{" + name + "}}" + Rewritten(rest)
  {
    hide Rewritten, First;
    FirstVariable(name, rest);
    var head := "{" + name + "}";
    RewrittenStep(head + rest);
    assert (head + rest)[|head|..] == rest;
  }

  /** The migration is a translation: a template written in the old syntax becomes the same
      template written in the new syntax. */
  lemma {:induction false} TemplatesTranslated(parts: seq<Part>)
    requires PartsOk(parts)
    ensures Rewritten(OldTemplate(parts)) == NewTemplate(parts)
  {
    hide Rewritten, NameOk, Doubled;
    if parts == [] {
      RewrittenNone();
    } else {
      TemplatesTranslated(parts[1..]);
      match parts[0]
      case Literal(text) => RewriteLiteral(text, OldTemplate(parts[1..]));
      case Hole(name) => RewriteHole(name, OldTemplate(parts[1..]));
    }
  }

  // ---------------------------------------------------------------- running it twice

  predicate BraceFree(parts: seq<Part>) {
    forall i | 0 <= i < |parts| && parts[i].Literal? :: '{' !in parts[i].text && '}' !in parts[i].text
  }

  lemma {:induction false} DoubledBraceFree(text: string)
    requires '{' !in text && '}' !in text
    ensures Doubled(text) == text
  {
    if text != "" {
      assert text[0] in text && text == [text[0]] + text[1..];
      DoubledBraceFree(text[1..]);
    }
  }

  /** A variable in the new syntax reads as an escaped brace, a literal, and an escaped brace. */
  lemma UnwriteHole(name: string, rest: string)
    requires NameOk(name)
    ensures Rewritten("{{" + name + "}}" + rest) == "{" + name + "}" + Rewritten(rest)
  {
    NameHasNoBrace(name);
    DoubledBraceFree(name);
    hide Rewritten, NameOk, Doubled;
    var after := "}}" + rest;
    assert "{{" + name + "}}" + rest == "{{" + (name + after);
    RewrittenStep("{{" + (name + after));
    assert ("{{" + (name + after))[2..] == name + after;
    RewriteLiteral(name, after);
    RewrittenStep(after);
    assert after[2..] == rest;
    Assoc(name, "}", Rewritten(rest));
    Assoc("{", name, "}" + Rewritten(rest));
    Assoc("{" + name, "}", Rewritten(rest));
  }

  /** Running the translation on its own output undoes it. */
  lemma {:induction false} SecondRunUndoes(parts: seq<Part>)
    requires PartsOk(parts) && BraceFree(parts)
    ensures Rewritten(NewTemplate(parts)) == OldTemplate(parts)
    ensures Rewritten(Rewritten(OldTemplate(parts))) == OldTemplate(parts)
  {
    TemplatesTranslated(parts);
    hide Rewritten, NameOk, Doubled;
    if parts == [] {
      RewrittenNone();
    } else {
      SecondRunUndoes(parts[1..]);
      match parts[0]
      case Literal(text) =>
        DoubledBraceFree(text);
        RewriteLiteral(text, NewTemplate(parts[1..]));
      case Hole(name) => UnwriteHole(name, NewTemplate(parts[1..]));
    }
  }

  // ---------------------------------------------------------------- what the translation leaves alone

  /** Tokens whose two forms agree, and variables within single escaped braces: `{{{name}}}`. */
  predicate Unmoved(ts: seq<Token>) {
    if ts == [] then true
    else if OldToken(ts[0]) == NewToken(ts[0]) then Unmoved(ts[1..])
    else |ts| >= 3 && ts[0] == EscapedOpen && ts[1].Variable? && ts[2] == EscapedClose && Unmoved(ts[3..])
  }

  lemma RepeatShift(c: char, k: nat, rest: string)
    ensures Repeat(c, k) + ([c] + rest) == [c] + (Repeat(c, k) + rest)
    ensures Repeat(c, k + 1) + rest == [c] + (Repeat(c, k) + rest)
  {
    assert Repeat(c, k) + [c] == Repeat(c, k + 1) == [c] + Repeat(c, k);
  }

  // What a string and its translation start with, token by token.

  lemma FrontOpen(v: string)
    requires v != "" && First(v) == EscapedOpen
    ensures |v| >= 2 && v == "{{" + v[2..] && Rewritten(v) == "{" + Rewritten(v[2..])
  {
    RewrittenStep(v);
    hide Rewritten, NameOk;
  }

  lemma FrontClose(v: string)
    requires v != "" && First(v) == EscapedClose
    ensures |v| >= 2 && v == "}}" + v[2..] && Rewritten(v) == "}" + Rewritten(v[2..])
  {
    RewrittenStep(v);
    hide Rewritten, NameOk;
  }

  lemma FrontPlain(v: string)
    requires v != "" && First(v).Plain?
    ensures v == [v[0]] + v[1..] && Rewritten(v) == [v[0]] + Rewritten(v[1..])
    ensures v[0] != '{' && (v[0] == '}' && |v| > 1 ==> v[1] != '}')
  {
    RewrittenStep(v);
    hide Rewritten, NameOk;
  }

  lemma FrontVariable(v: string)
    requires v != "" && First(v).Variable?
    ensures var name := First(v).name;
      && name != "" && name[0] != '{' && |name| + 2 <= |v|
      && v == "{" + name + "}" + v[|name| + 2..]
      && Rewritten(v) == "{{" + name + "}}" + Rewritten(v[|name| + 2..])
  {
    hide Rewritten, NameOk, First;
    VariableIsName(v);
    NameHasNoBrace(First(v).name);
    RewrittenStep(v);
    var t := OldToken(First(v));
    assert |t| == |First(v).name| + 2 && v == t + v[|t|..];
  }

  lemma VariableIsName(v: string)
    requires v != "" && First(v).Variable?
    ensures NameOk(First(v).name)
  {
    hide NameOk, IndexOf;
  }

  lemma OtherIsSingle(v: string)
    requires v != "" && (First(v).Group? || First(v).Unclosed?)
    ensures v[0] == '{' && (|v| > 1 ==> v[1] != '{') && (|OldToken(First(v))| == 1 ==> v == OldToken(First(v)))
  {
    hide NameOk, IndexOf;
  }

  lemma FrontOther(v: string)
    requires v != "" && (First(v).Group? || First(v).Unclosed?)
    ensures v[0] == '{' && (|v| > 1 ==> v[1] != '{')
    ensures var t := OldToken(First(v));
      t != "" && t <= v && v == t + v[|t|..] && Rewritten(v) == t + Rewritten(v[|t|..]) && (|t| == 1 ==> v == t)
  {
    hide Rewritten, NameOk, First;
    OtherIsSingle(v);
    RewrittenStep(v);
    OtherSame(First(v));
    hide OldToken, NewToken;
    assert v == OldToken(First(v)) + v[|OldToken(First(v))|..];
  }

  lemma OtherSame(t: Token)
    requires t.Group? || t.Unclosed?
    ensures OldToken(t) == NewToken(t)
  {
  }

  lemma OtherStart(v: string)
    requires v != "" && (First(v).Group? || First(v).Unclosed?)
    ensures Rewritten(v) != "" && Rewritten(v)[0] == '{' && (|Rewritten(v)| > 1 ==> Rewritten(v)[1] != '{')
  {
    FrontOther(v);
    RewrittenNone();
    hide Rewritten, NameOk, First;
    var t := OldToken(First(v));
    assert Rewritten(v)[0] == t[0] == v[0];
    if |t| > 1 { assert Rewritten(v)[1] == t[1] == v[1]; } else { assert v[|t|..] == ""; }
  }

  lemma Cancel(p: string, a: string, b: string)
    ensures p + a == p + b <==> a == b
  {
    assert (p + a)[|p|..] == a && (p + b)[|p|..] == b;
  }

  /** A translation is never its original behind extra closing braces... */
  lemma {:induction false} NoClosingGained(v: string, k: nat)
    requires k >= 1
    ensures Rewritten(v) != Repeat('}', k) + v
    decreases |v|
  {
    hide Rewritten, NameOk, First;
    if v == "" {
      RewrittenNone();
    } else if Rewritten(v) == Repeat('}', k) + v {
      assert Rewritten(v)[0] == '}';
      match First(v)
      case EscapedOpen => FrontOpen(v);
      case EscapedClose =>
        FrontClose(v);
        MoreClosing(v[2..], k);
        NoClosingGained(v[2..], k + 1);
      case Variable(name) => FrontVariable(v);
      case Plain(c) =>
        FrontPlain(v);
        RepeatShift('}', k, v[1..]);
        Cancel("}", Rewritten(v[1..]), Repeat('}', k) + v[1..]);
        NoClosingGained(v[1..], k);
      case _ => OtherStart(v);
    }
  }

  lemma MoreClosing(rest: string, k: nat)
    ensures "}" + Rewritten(rest) == Repeat('}', k) + ("}}" + rest) <==> Rewritten(rest) == Repeat('}', k + 1) + rest
  {
    hide Rewritten;
    RepeatShift('}', k, rest);
    RepeatShift('}', k, "}" + rest);
    assert "}}" + rest == "}" + ("}" + rest);
    Cancel("}", Rewritten(rest), Repeat('}', k + 1) + rest);
  }

  /** ... nor behind two or more extra opening braces. */
  lemma {:induction false} NoOpeningGained(v: string, k: nat)
    requires k >= 2
    ensures Rewritten(v) != Repeat('{', k) + v
    decreases |v|
  {
    hide Rewritten, NameOk, First;
    if v == "" {
      RewrittenNone();
    } else if Rewritten(v) == Repeat('{', k) + v {
      var r := Rewritten(v);
      assert r[0] == '{' && r[1] == '{' && (r[2] == '{' || r[2] == v[0]);
      match First(v)
      case EscapedOpen =>
        FrontOpen(v);
        MoreOpening(v[2..], k);
        NoOpeningGained(v[2..], k + 1);
      case EscapedClose => FrontClose(v);
      case Variable(name) =>
        FrontVariable(v);
      case Plain(c) => FrontPlain(v);
      case _ => OtherStart(v);
    }
  }

  lemma MoreOpening(rest: string, k: nat)
    ensures "{" + Rewritten(rest) == Repeat('{', k) + ("{{" + rest) <==> Rewritten(rest) == Repeat('{', k + 1) + rest
  {
    hide Rewritten;
    RepeatShift('{', k, rest);
    RepeatShift('{', k, "{" + rest);
    assert "{{" + rest == "{" + ("{" + rest);
    Cancel("{", Rewritten(rest), Repeat('{', k + 1) + rest);
  }

  /** A string is a closing brace and its own translation if and only if it starts with an
      escaped closing brace and the rest is left alone. */
  lemma ClosingOwed(v: string)
    ensures v == "}" + Rewritten(v) <==> v != "" && First(v) == EscapedClose && Rewritten(v[2..]) == v[2..]
  {
    hide Rewritten, NameOk, First;
    if v == "" {
      RewrittenNone();
    } else {
      assert ("}" + Rewritten(v))[0] == '}';
      match First(v)
      case EscapedOpen => FrontOpen(v);
      case EscapedClose =>
        FrontClose(v);
        assert "}" + ("}" + Rewritten(v[2..])) == "}}" + Rewritten(v[2..]);
        Cancel("}}", Rewritten(v[2..]), v[2..]);
      case Variable(name) => FrontVariable(v);
      case Plain(c) =>
        FrontPlain(v);
        assert ("}" + Rewritten(v))[1] == v[0];
      case _ => FrontOther(v);
    }
  }

  lemma OwedByVariable(name: string, rest: string, v: string)
    requires v == "{" + name + "}" + rest && Rewritten(v) == "{{" + name + "}}" + Rewritten(rest)
    ensures Rewritten(v) == "{" + v <==> rest == "}" + Rewritten(rest)
  {
    hide Rewritten;
    var p, r := "{{" + name + "}", Rewritten(rest);
    assert "{" + v == p + rest;
    assert "{{" + name + "}}" + r == p + ("}" + r);
    Cancel(p, "}" + r, rest);
  }

  /** And an opening brace less than its translation if and only if it starts with a variable and
      the rest owes a closing brace. */
  lemma OpeningOwed(v: string)
    ensures Rewritten(v) == "{" + v <==>
      v != "" && First(v).Variable? &&
      var rest := v[|OldToken(First(v))|..]; rest == "}" + Rewritten(rest)
  {
    hide Rewritten, NameOk, First;
    if v == "" {
      RewrittenNone();
    } else {
      assert ("{" + v)[0] == '{';
      assert ("{" + v)[1] == v[0];
      match First(v)
      case EscapedOpen =>
        FrontOpen(v);
        MoreOpening(v[2..], 1);
        NoOpeningGained(v[2..], 2);
        assert Repeat('{', 1) == "{";
      case EscapedClose => FrontClose(v);
      case Variable(name) =>
        FrontVariable(v);
        OwedByVariable(name, v[|name| + 2..], v);
      case Plain(c) => FrontPlain(v);
      case _ =>
        FrontOther(v);
        OtherStart(v);
    }
  }

  /** For every string: the translation leaves it alone if and only if all its tokens agree in
      both syntaxes, but for variables within single escaped braces. */
  lemma {:induction false} FixedIff(u: string)
    ensures Rewritten(u) == u <==> Unmoved(Tokens(u))
    decreases |u|
  {
    hide Rewritten, NameOk, First, Tokens, Unmoved;
    if u == "" {
      RewrittenNone();
      NoTokens();
    } else {
      TokensUnfold(u);
      var rest := u[|OldToken(First(u))|..];
      UnmovedStep(First(u), Tokens(rest));
      match First(u)
      case EscapedOpen =>
        FrontOpen(u);
        assert u == "{" + ("{" + rest);
        Cancel("{", Rewritten(rest), "{" + rest);
        BracedIff(rest);
      case EscapedClose =>
        FrontClose(u);
        assert u == "}" + ("}" + rest) && Repeat('}', 1) == "}";
        Cancel("}", Rewritten(rest), "}" + rest);
        NoClosingGained(rest, 1);
      case Variable(name) =>
        FrontVariable(u);
        assert Rewritten(u)[1] == '{' && u[1] == name[0];
      case Plain(c) =>
        FrontPlain(u);
        FixedIff(rest);
        Cancel([c], Rewritten(rest), rest);
      case _ =>
        FrontOther(u);
        FixedIff(rest);
        Cancel(OldToken(First(u)), Rewritten(rest), rest);
    }
  }

  lemma NoTokens()
    ensures Tokens("") == [] && Unmoved([])
  {
  }

  lemma UnmovedStep(t: Token, ts: seq<Token>)
    ensures t.Plain? || t.Group? || t.Unclosed? ==> (Unmoved([t] + ts) <==> Unmoved(ts))
    ensures t.EscapedClose? || t.Variable? ==> !Unmoved([t] + ts)
    ensures t.EscapedOpen? ==>
      (Unmoved([t] + ts) <==> |ts| >= 2 && ts[0].Variable? && ts[1] == EscapedClose && Unmoved(ts[2..]))
  {
    var all := [t] + ts;
    assert all[1..] == ts && (|all| >= 3 ==> all[3..] == ts[2..]);
    match t
    case Variable(name) => assert |OldToken(t)| != |NewToken(t)|;
    case _ =>
  }

  /** The case of an escaped opening brace in front of `rest`. */
  lemma BracedIff(rest: string)
    ensures Rewritten(rest) == "{" + rest <==>
      var ts := Tokens(rest); |ts| >= 2 && ts[0].Variable? && ts[1] == EscapedClose && Unmoved(ts[2..])
    decreases |rest|, 0
  {
    hide Rewritten, NameOk, First, Unmoved, Tokens;
    OpeningOwed(rest);
    if rest == "" {
      NoTokens();
    } else {
      TokensUnfold(rest);
      var more := rest[|OldToken(First(rest))|..];
      ClosingOwed(more);
      if more == "" {
        NoTokens();
      } else {
        TokensUnfold(more);
        assert Tokens(rest)[2..] == Tokens(more)[1..];
        if First(more) == EscapedClose { FixedIff(more[2..]); }
      }
    }
  }

  /** Translating twice is translating once if and only if the first translation is left alone. */
  lemma IdempotentIff(s: string)
    ensures Rewritten(Rewritten(s)) == Rewritten(s) <==> Unmoved(Tokens(Rewritten(s)))
  {
    hide Rewritten, Unmoved, Tokens;
    FixedIff(Rewritten(s));
  }

  /** For templates whose literals hold no brace: if and only if there is no variable. */
  lemma TemplateIdempotentIff(parts: seq<Part>)
    requires PartsOk(parts) && BraceFree(parts)
    ensures Rewritten(Rewritten(OldTemplate(parts))) == Rewritten(OldTemplate(parts))
      <==> forall i | 0 <= i < |parts| :: parts[i].Literal?
  {
    hide Rewritten, NameOk;
    SecondRunUndoes(parts);
    TemplatesTranslated(parts);
    HolesGrow(parts);
  }

  lemma {:induction false} HolesGrow(parts: seq<Part>)
    requires BraceFree(parts)
    ensures |OldTemplate(parts)| <= |NewTemplate(parts)|
    ensures if forall i | 0 <= i < |parts| :: parts[i].Literal? then OldTemplate(parts) == NewTemplate(parts)
            else |OldTemplate(parts)| < |NewTemplate(parts)|
  {
    if parts != [] {
      HolesGrow(parts[1..]);
      assert forall i | 1 <= i < |parts| :: parts[i] == parts[1..][i - 1];
      match parts[0]
      case Literal(text) => DoubledBraceFree(text);
      case Hole(name) => assert !parts[0].Literal?;
    }
  }

  /** Braces around anything but a name stay, and so does everything from a brace that is never
      closed; a closing brace on its own, and any other character, stays. */
  lemma OthersStay(text: string, c: char, rest: string)
    requires '}' !in text && (text != "" ==> text[0] != '{')
    ensures !NameOk(text) ==> Rewritten("{" + text + "}" + rest) == "{" + text + "}" + Rewritten(rest)
    ensures Rewritten("{" + text) == "{" + text
    ensures c != '{' && !(c == '}' && rest != "" && rest[0] == '}') ==> Rewritten([c] + rest) == [c] + Rewritten(rest)
  {
    GroupStays(text, rest);
    UnclosedStays(text);
    if c != '{' && !(c == '}' && rest != "" && rest[0] == '}') {
      RewrittenStep([c] + rest);
      assert ([c] + rest)[1..] == rest;
    }
    hide Rewritten, NameOk;
  }

  lemma GroupStays(text: string, rest: string)
    requires '}' !in text && (text != "" ==> text[0] != '{')
    ensures !NameOk(text) ==> Rewritten("{" + text + "}" + rest) == "{" + text + "}" + Rewritten(rest)
  {
    hide Rewritten, NameOk;
    if !NameOk(text) {
      var s := "{" + text + "}" + rest;
      assert s[1..] == text + ['}'] + rest;
      IndexOfAfter(text, '}', rest);
      assert s[1] != '{';
      assert First(s) == Group(text);
      RewrittenStep(s);
      assert s[|text| + 2..] == rest;
    }
  }

  lemma UnclosedStays(text: string)
    requires '}' !in text && (text != "" ==> text[0] != '{')
    ensures Rewritten("{" + text) == "{" + text
  {
    hide Rewritten, NameOk;
    var s := "{" + text;
    assert s[1..] == text;
    assert First(s) == Unclosed(s);
    RewrittenStep(s);
    RewrittenNone();
    assert s[|s|..] == "" && s + "" == s;
  }

  // ---------------------------------------------------------------- the migration

  datatype Action = Format(format: string) | Other

  function Migrated(a: Action): Action {
    match a case Format(f) => Format(Rewritten(f)) case Other => Other
  }

  /** How many of the first `n` steps the translation changes, and so are saved. */
  function Changes(steps: seq<Action>, n: nat): nat
    requires n <= |steps|
  {
    if n == 0 then 0 else Changes(steps, n - 1) + if Migrated(steps[n - 1]) != steps[n - 1] then 1 else 0
  }

  /** Has the save of step `i`, or of the flag after all steps, been reached when only `saves`
      saves succeed? */
  predicate Reached(steps: seq<Action>, saves: Option<nat>, i: nat)
    requires i <= |steps|
  {
    saves.None? || Changes(steps, i) < saves.value
  }

  /** Steps of server schedules, and the flag that says that the migration has run. */
  class Store {
    var steps: seq<Action>
    var done: bool

    constructor (steps: seq<Action>)
      ensures this.steps == steps && !done
    {
      this.steps, done := steps, false;
    }

    /** Translates every format step and then sets the flag, which makes later runs do nothing.
        With `saves` the first save after that many fails: the run stops there. */
    method Migrate(saves: Option<nat>)
      modifies this
      ensures done == (old(done) || Reached(old(steps), saves, |old(steps)|))
      ensures |steps| == |old(steps)|
      ensures forall i | 0 <= i < |steps| ::
        steps[i] == if !old(done) && Reached(old(steps), saves, i) then Migrated(old(steps)[i]) else old(steps)[i]
    {
      hide Rewritten, Changes;
      if done { return; }
      ChangesNone(steps);
      ghost var before := steps;
      var saved := 0;
      var i := 0;
      while i < |steps|
        invariant 0 <= i <= |steps| == |before|
        invariant !done
        invariant saved == Changes(before, i) && (saves.Some? ==> saved <= saves.value)
        invariant forall j | 0 <= j < i ::
          steps[j] == if Reached(before, saves, j) then Migrated(before[j]) else before[j]
        invariant forall j | i <= j < |steps| :: steps[j] == before[j]
      {
        ChangesStep(before, i);
        if steps[i].Format? {
          var next := Rewrite(steps[i].format);
          if next != steps[i].format {
            if saves == Some(saved) {
              NotReached(before, saved, i);
              return;
            }
            steps := steps[i := Format(next)];
            saved := saved + 1;
          }
        }
        i := i + 1;
      }
      if saves == Some(saved) { return; }
      done := true;
    }
  }

  lemma ChangesNone(steps: seq<Action>)
    ensures Changes(steps, 0) == 0
  {
  }

  lemma ChangesStep(steps: seq<Action>, i: nat)
    requires i < |steps|
    ensures Changes(steps, i + 1) == Changes(steps, i) + if Migrated(steps[i]) != steps[i] then 1 else 0
  {
  }

  lemma {:induction false} ChangesGrow(steps: seq<Action>, i: nat, j: nat)
    requires i <= j <= |steps|
    ensures Changes(steps, i) <= Changes(steps, j)
    decreases j
  {
    hide Migrated;
    if i < j { ChangesGrow(steps, i, j - 1); }
  }

  lemma NotReached(steps: seq<Action>, saved: nat, i: nat)
    requires i <= |steps| && Changes(steps, i) == saved
    ensures forall j | i <= j <= |steps| :: !Reached(steps, Some(saved), j)
  {
    hide Changes;
    forall j | i <= j <= |steps| ensures !Reached(steps, Some(saved), j) { ChangesGrow(steps, i, j); }
  }

  /** With the flag, any number of migrations leaves a store as the first one did. */
  method MigrateTwice(store: Store)
    modifies store
    requires !store.done
    ensures |store.steps| == |old(store.steps)|
    ensures forall i | 0 <= i < |store.steps| ::
      store.steps[i] == match old(store.steps)[i] case Format(f) => Format(Rewritten(f)) case Other => Other
  {
    store.Migrate(None);
    store.Migrate(None);
  }

  /** A run that fails after `saves` saves, and then one that does not: what the first run had
      saved is translated twice.  Step `i` ends translated if and only if the first run had not
      reached it, or its translation is left alone by another one. */
  method MigrateAfterFailure(store: Store, saves: nat)
    modifies store
    requires !store.done && saves <= Changes(store.steps, |store.steps|)
    ensures store.done && |store.steps| == |old(store.steps)|
    ensures forall i | 0 <= i < |store.steps| ::
      var step := old(store.steps)[i];
      && store.steps[i] ==
           (if Reached(old(store.steps), Some(saves), i) then Migrated(Migrated(step)) else Migrated(step))
      && (step.Format? ==>
            (store.steps[i] == Migrated(step) <==>
               !Reached(old(store.steps), Some(saves), i) || Unmoved(Tokens(Rewritten(step.format)))))
  {
    hide Rewritten, Changes, Unmoved, Tokens;
    ghost var before := store.steps;
    store.Migrate(Some(saves));
    store.Migrate(None);
    forall i | 0 <= i < |before| && before[i].Format?
      ensures Migrated(Migrated(before[i])) == Migrated(before[i]) <==> Unmoved(Tokens(Rewritten(before[i].format)))
    {
      IdempotentIff(before[i].format);
    }
  }
}
