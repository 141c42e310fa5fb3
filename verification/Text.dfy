/** Strings shared by the models: searching, splitting and joining.

    Bytes are modelled as characters, one character per byte, so that header names and
    delimiters can be written as literals.  Nothing below relies on characters being
    smaller than 256: every result also holds for the larger set of inputs. */
module Text {

  type Bytes = seq<char>

  datatype Option<+T> = None | Some(value: T)

  lemma Assoc<T>(a: seq<T>, b: seq<T>, c: seq<T>)
    ensures a + (b + c) == a + b + c
  {
  }

  /** A slice inside `s` is not affected by what follows `s`. */
  lemma TakeOfAppend<T>(s: seq<T>, ext: seq<T>, i: nat, j: nat)
    requires i <= j <= |s|
    ensures (s + ext)[i..j] == s[i..j] && s + [] == s
    ensures i == 0 ==> (s + ext)[..j] == s[..j]
  {
  }

  function Repeat<T>(x: T, n: nat): (r: seq<T>)
    ensures |r| == n && forall i | 0 <= i < n :: r[i] == x
  {
    seq(n, _ => x)
  }

  /** The first index of `c` in `s`, or -1: memchr in Rust, indexOf in JavaScript. */
  function IndexOf(s: string, c: char): (r: int)
    ensures -1 <= r < |s|
    ensures r >= 0 ==> s[r] == c && forall j | 0 <= j < r :: s[j] != c
    ensures r < 0 ==> c !in s
  {
    if s == "" then -1
    else if s[0] == c then 0
    else
      var r := IndexOf(s[1..], c);
      if r < 0 then -1 else r + 1
  }

  /** `IndexOf` is the only answer that fits its contract. */
  lemma IndexOfUnique(s: string, c: char, k: nat)
    requires k < |s| && s[k] == c && forall j | 0 <= j < k :: s[j] != c
    ensures IndexOf(s, c) == k
  {
    assert c in s;
  }

  /** The first separator of `a + [c] + b` is the one after `a` when `a` has none. */
  lemma IndexOfAfter(a: string, c: char, b: string)
    requires c !in a
    ensures IndexOf(a + [c] + b, c) == |a|
    ensures (a + [c] + b)[..|a|] == a && (a + [c] + b)[|a| + 1..] == b
  {
    IndexOfUnique(a + [c] + b, c, |a|);
  }

  /** A found index does not move when the string is extended. */
  lemma IndexOfStable(s: string, c: char, ext: string)
    requires IndexOf(s, c) >= 0
    ensures IndexOf(s + ext, c) == IndexOf(s, c)
  {
    IndexOfUnique(s + ext, c, IndexOf(s, c));
  }

  /** All pieces between separators; a string without separator is one piece. */
  function Split(s: string, c: char): (r: seq<string>)
    ensures |r| >= 1
    ensures forall p | p in r :: c !in p
    decreases |s|
  {
    var i := IndexOf(s, c);
    if i < 0 then [s] else [s[..i]] + Split(s[i + 1..], c)
  }

  lemma SplitCons(a: string, c: char, b: string)
    requires c !in a
    ensures Split(a + [c] + b, c) == [a] + Split(b, c)
  {
    IndexOfAfter(a, c, b);
    var s := a + [c] + b;
    assert s[..|a|] == a;
    assert s[|a| + 1..] == b;
  }

  lemma SplitNone(a: string, c: char)
    requires c !in a
    ensures Split(a, c) == [a]
  {
  }

  /** The pieces with a separator string between each two of them. */
  function Join(parts: seq<string>, sep: string): string {
    if parts == [] then ""
    else if |parts| == 1 then parts[0]
    else parts[0] + sep + Join(parts[1..], sep)
  }

  /** Splitting undoes joining when no piece holds the separator. */
  lemma {:induction false} SplitJoin(parts: seq<string>, c: char)
    requires parts != []
    requires forall p | p in parts :: c !in p
    ensures Split(Join(parts, [c]), c) == parts
  {
    hide Split, IndexOf;
    assert parts[0] in parts;
    if |parts| == 1 {
      SplitNone(parts[0], c);
      assert parts == [parts[0]];
    } else {
      var head, tail := parts[0], parts[1..];
      assert parts == [head] + tail;
      assert forall p | p in tail :: p in parts;
      SplitJoin(tail, c);
      SplitCons(head, c, Join(tail, [c]));
    }
  }

  /** Joining undoes splitting, so different strings have different pieces. */
  lemma {:induction false} JoinSplit(s: string, c: char)
    ensures Join(Split(s, c), [c]) == s
    decreases |s|
  {
    var i := IndexOf(s, c);
    if i >= 0 {
      JoinSplit(s[i + 1..], c);
      var rest := Split(s[i + 1..], c);
      assert ([s[..i]] + rest)[1..] == rest;
      assert s == s[..i] + [c] + s[i + 1..];
    }
  }

  function LowerChar(c: char): char {
    if 'A' <= c <= 'Z' then (c as int + 32) as char else c
  }

  /** ASCII lower case. */
  function Lower(s: string): (r: string)
    ensures |r| == |s|
    ensures forall i | 0 <= i < |s| :: r[i] == LowerChar(s[i])
  {
    seq(|s|, i requires 0 <= i < |s| => LowerChar(s[i]))
  }

  /** Is the window of `s` at `i`, lowercased, equal to `pattern`? */
  predicate IcAt(s: string, i: nat, pattern: string)
  {
    i + |pattern| <= |s| && Lower(s[i..i + |pattern|]) == pattern
  }

  /** Does some window of `s`, lowercased, equal `pattern`? */
  predicate ContainsIc(s: string, pattern: string) {
    exists i | 0 <= i <= |s| :: IcAt(s, i, pattern)
  }

  predicate StartsWith(s: string, p: string) { |p| <= |s| && s[..|p|] == p }

  predicate EndsWith(s: string, p: string) { |p| <= |s| && s[|s| - |p|..] == p }

  /** White space of JavaScript: what \s matches and what trim removes. */
  predicate JsSpace(c: char) {
    var n := c as int;
    || 9 <= n <= 13 || n == 32 || n == 0xA0 || n == 0x1680 || 0x2000 <= n <= 0x200A
    || n == 0x2028 || n == 0x2029 || n == 0x202F || n == 0x205F || n == 0x3000 || n == 0xFEFF
  }

  function JsTrimLeft(s: string): (r: string)
    ensures |r| <= |s| && r == s[|s| - |r|..]
    ensures r != "" ==> !JsSpace(r[0])
  {
    if s != "" && JsSpace(s[0]) then
      var r := JsTrimLeft(s[1..]);
      assert s[1..][|s| - 1 - |r|..] == s[|s| - |r|..];
      r
    else s
  }

  function JsTrimRight(s: string): (r: string)
    ensures r <= s
    ensures r != "" ==> !JsSpace(r[|r| - 1])
  {
    if s != "" && JsSpace(s[|s| - 1]) then JsTrimRight(s[..|s| - 1]) else s
  }

  /** trim of JavaScript. */
  function JsTrim(s: string): string { JsTrimRight(JsTrimLeft(s)) }

  /** Every run of white space becomes one hyphen. */
  function Dashed(s: string): (r: string)
    ensures forall c | c in r :: !JsSpace(c)
  {
    if s == "" then ""
    else if !JsSpace(s[0]) then [s[0]] + Dashed(s[1..])
    else if |s| > 1 && JsSpace(s[1]) then Dashed(s[1..])
    else "-" + Dashed(s[1..])
  }

  function DigitValue(c: char): nat {
    if '0' <= c <= '9' then c as nat - '0' as nat
    else if 'a' <= c <= 'z' then c as nat - 'a' as nat + 10
    else if 'A' <= c <= 'Z' then c as nat - 'A' as nat + 10
    else 99
  }

  predicate IsDigits(s: Bytes, radix: nat) { forall c | c in s :: DigitValue(c) < radix }

  /** The number written by the digits `s`, most significant first. */
  function Value(s: Bytes, radix: nat): nat
  {
    if s == "" then 0 else Value(s[..|s| - 1], radix) * radix + DigitValue(s[|s| - 1])
  }
}
