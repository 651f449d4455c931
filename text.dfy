/** String operations of the JavaScript runtime that the composer and the
    bundle emitter rely on: `indexOf`, `split`, `join`, `trim` and the
    character classes of regular expressions. Strings are sequences of
    `char`, one per character of the JavaScript string; how JavaScript
    splits a character into UTF-16 code units is not represented. */
module Text {

  datatype Option<+T> = None | Some(value: T)

  /** `pat` occurs in `s` at offset `k`. */
  predicate StartsAt(s: string, k: nat, pat: string)
  {
    k + |pat| <= |s| && forall i :: 0 <= i < |pat| ==> s[k + i] == pat[i]
  }

  /** `s.indexOf(pat, from)`: the first offset at or after `from` where
      `pat` occurs, or None where JavaScript answers -1. */
  function IndexOf(s: string, pat: string, from: nat): (r: Option<nat>)
    decreases |s| - from
    ensures r.Some? ==> from <= r.value && StartsAt(s, r.value, pat)
  {
    if from + |pat| > |s| then None
    else if StartsAt(s, from, pat) then Some(from)
    else IndexOf(s, pat, from + 1)
  }

  /** IndexOf finds the first occurrence: none lies before the offset it
      reports, and there is none at all when it reports nothing. */
  lemma {:induction false} IndexOfFirst(s: string, pat: string, from: nat)
    decreases |s| - from
    ensures IndexOf(s, pat, from).Some? ==> forall k :: from <= k < IndexOf(s, pat, from).value ==> !StartsAt(s, k, pat)
    ensures IndexOf(s, pat, from).None? ==> forall k :: from <= k ==> !StartsAt(s, k, pat)
  {
    if from + |pat| <= |s| && !StartsAt(s, from, pat) {
      IndexOfFirst(s, pat, from + 1);
    }
  }

  /** `s.indexOf(pat) !== -1`, the test behind the source's `inVal` on strings. */
  predicate Contains(s: string, pat: string)
  {
    IndexOf(s, pat, 0).Some?
  }

  lemma ContainsIff(s: string, pat: string)
    ensures Contains(s, pat) <==> exists k :: StartsAt(s, k, pat)
  {
    IndexOfFirst(s, pat, 0);
  }

  /** `s.split(sep)` for a one-character separator: the pieces between the
      separators, always at least one (`"".split(sep)` is `[""]`). */
  function Split(s: string, sep: char): (r: seq<string>)
    decreases |s|
    ensures |r| >= 1
    ensures forall i :: 0 <= i < |r| ==> sep !in r[i]
    ensures |r[0]| <= |s| && r[0] == s[..|r[0]|]
    ensures |r[0]| < |s| ==> s[|r[0]|] == sep
    ensures |r[0]| == |s| ==> |r| == 1
  {
    IndexOfFirst(s, [sep], 0);
    match IndexOf(s, [sep], 0)
    case None =>
      assert forall k :: 0 <= k < |s| ==> !StartsAt(s, k, [sep]);
      assert forall k :: 0 <= k < |s| ==> s[k] != sep by {
        forall k | 0 <= k < |s| ensures s[k] != sep {
          assert !StartsAt(s, k, [sep]);
          assert s[k..k + 1] == [s[k]];
        }
      }
      [s]
    case Some(k) =>
      assert s[k..k + 1] == [sep];
      assert sep !in s[..k] by {
        forall j | 0 <= j < k ensures s[j] != sep {
          assert !StartsAt(s, j, [sep]);
          assert s[j..j + 1] == [s[j]];
        }
      }
      [s[..k]] + Split(s[k + 1..], sep)
  }

  /** `parts.join(sep)`. */
  function Join(parts: seq<string>, sep: string): string
  {
    if |parts| == 0 then ""
    else if |parts| == 1 then parts[0]
    else parts[0] + sep + Join(parts[1..], sep)
  }

  lemma JoinCons(part: string, rest: seq<string>, sep: string)
    requires rest != []
    ensures Join([part] + rest, sep) == part + sep + Join(rest, sep)
  {
    assert ([part] + rest)[1..] == rest;
  }

  /** Splitting a text at a separator and joining the pieces again gives
      the text back, so the lines of the class file that no rule rewrites
      come back unchanged in the clone. */
  lemma {:induction false} JoinSplit(s: string, sep: char)
    decreases |s|
    ensures Join(Split(s, sep), [sep]) == s
  {
    match IndexOf(s, [sep], 0)
    case None =>
      assert Split(s, sep) == [s];
    case Some(k) =>
      var tail := s[k + 1..];
      var rest := Split(tail, sep);
      JoinSplit(tail, sep);
      assert Split(s, sep) == [s[..k]] + rest;
      assert s[k] == sep by { assert StartsAt(s, k, [sep]); assert s[k + 0] == [sep][0]; }
      JoinCons(s[..k], rest, [sep]);
      assert s == s[..k] + [sep] + tail;
  }

  /** Code points that `String.prototype.trim` removes: the white space and
      line terminators of ECMAScript. */
  predicate IsJsSpace(c: char)
  {
    var n := c as int;
    n == 0x09 || n == 0x0A || n == 0x0B || n == 0x0C || n == 0x0D || n == 0x20
    || n == 0xA0 || n == 0x1680 || (0x2000 <= n <= 0x200A) || n == 0x2028
    || n == 0x2029 || n == 0x202F || n == 0x205F || n == 0x3000 || n == 0xFEFF
  }

  /** Characters `.` does not match in a regular expression. */
  predicate IsLineTerminator(c: char)
  {
    var n := c as int;
    n == 0x0A || n == 0x0D || n == 0x2028 || n == 0x2029
  }

  /** The class `\w`: ASCII letters, digits and underscore. */
  predicate IsWordChar(c: char)
  {
    ('a' <= c <= 'z') || ('A' <= c <= 'Z') || ('0' <= c <= '9') || c == '_'
  }

  function TrimStart(s: string): (r: string)
    ensures |r| <= |s| && r == s[|s| - |r|..]
    ensures r == [] || !IsJsSpace(r[0])
  {
    if |s| > 0 && IsJsSpace(s[0]) then TrimStart(s[1..]) else s
  }

  function TrimEnd(s: string): (r: string)
    ensures |r| <= |s| && r == s[..|r|]
    ensures r == [] || !IsJsSpace(r[|r| - 1])
  {
    if |s| > 0 && IsJsSpace(s[|s| - 1]) then TrimEnd(s[..|s| - 1]) else s
  }

  /** TrimStart removes white space only. */
  lemma {:induction false} TrimStartDrops(s: string)
    decreases |s|
    ensures forall i :: 0 <= i < |s| - |TrimStart(s)| ==> IsJsSpace(s[i])
  {
    if |s| > 0 && IsJsSpace(s[0]) {
      TrimStartDrops(s[1..]);
      assert forall i :: 1 <= i < |s| ==> s[i] == s[1..][i - 1];
    }
  }

  /** TrimEnd removes white space only. */
  lemma {:induction false} TrimEndDrops(s: string)
    decreases |s|
    ensures forall i :: |TrimEnd(s)| <= i < |s| ==> IsJsSpace(s[i])
  {
    if |s| > 0 && IsJsSpace(s[|s| - 1]) {
      TrimEndDrops(s[..|s| - 1]);
    }
  }

  /** `s.trim()`: the longest infix that neither starts nor ends with white
      space, obtained by dropping white space from both ends. */
  function Trim(s: string): (r: string)
    ensures |r| <= |s|
    ensures r == [] || (!IsJsSpace(r[0]) && !IsJsSpace(r[|r| - 1]))
    ensures s == [] || (!IsJsSpace(s[0]) && !IsJsSpace(s[|s| - 1])) ==> r == s
  {
    var t := TrimStart(s);
    var r := TrimEnd(t);
    assert r != [] ==> r[0] == t[0];
    r
  }

  /** What `trim` returns is the infix `s[a..b]` of the line, and all that
      lies outside it is white space. */
  lemma TrimInfix(s: string) returns (a: nat, b: nat)
    ensures a <= b <= |s| && Trim(s) == s[a..b]
    ensures forall i :: 0 <= i < a ==> IsJsSpace(s[i])
    ensures forall i :: b <= i < |s| ==> IsJsSpace(s[i])
  {
    var t := TrimStart(s);
    TrimStartDrops(s);
    TrimEndDrops(t);
    a := |s| - |t|;
    b := a + |TrimEnd(t)|;
    assert forall i :: b <= i < |s| ==> s[i] == t[i - a];
  }
}
