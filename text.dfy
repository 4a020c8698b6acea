/** String operations the JavaScript sources rely on: the `\s` character
    class, `\d`, `toLowerCase`/`toUpperCase`, `trim`, `replace(/\s+/g, "")`,
    `includes`, `split`, `join`, `charAt(0).toUpperCase() + slice(1)` and
    the decimal rendering of a number inside a template literal. */
module Text {
  import opened Seqs

  /** JavaScript's `\s`, restricted to the ASCII white space characters and
      the no-break space. */
  predicate IsSpace(c: char) {
    c == ' ' || c == '\t' || c == '\n' || c == '\r' || c == '\U{000B}' || c == '\U{000C}' || c == '\U{00A0}'
  }

  /** JavaScript's `\d`: an ASCII decimal digit. */
  predicate IsDigit(c: char) {
    '0' <= c <= '9'
  }

  predicate NoSpaces(s: string) {
    forall i :: 0 <= i < |s| ==> !IsSpace(s[i])
  }

  predicate AllDigits(s: string) {
    forall i :: 0 <= i < |s| ==> IsDigit(s[i])
  }

  function LowerChar(c: char): char {
    if 'A' <= c <= 'Z' then (c as int + 32) as char else c
  }

  function UpperChar(c: char): char {
    if 'a' <= c <= 'z' then (c as int - 32) as char else c
  }

  /** `toLowerCase()` on the ASCII letters. */
  function ToLower(s: string): (r: string)
    ensures |r| == |s|
    ensures forall i :: 0 <= i < |s| ==> r[i] == LowerChar(s[i])
  {
    if s == [] then [] else [LowerChar(s[0])] + ToLower(s[1..])
  }

  /** A string without capitals is its own lower case. */
  lemma {:induction false} ToLowerOfLower(s: string)
    requires forall i :: 0 <= i < |s| ==> !('A' <= s[i] <= 'Z')
    ensures ToLower(s) == s
  {
    assert forall i :: 0 <= i < |s| ==> ToLower(s)[i] == s[i];
  }

  lemma {:induction false} ToLowerCons(c: char, t: string)
    ensures ToLower([c] + t) == [LowerChar(c)] + ToLower(t)
  {
    var s := [c] + t;
    assert s[0] == c && s[1..] == t;
  }

  /** Lower-casing leaves no capital. */
  lemma {:induction false} ToLowerNoCapitals(s: string)
    ensures forall i :: 0 <= i < |s| ==> !('A' <= ToLower(s)[i] <= 'Z')
  {
  }

  lemma {:induction false} ToLowerIdempotent(s: string)
    ensures ToLower(ToLower(s)) == ToLower(s)
  {
  }

  /** `replace(/\s+/g, "")`: every white space character removed. */
  function StripSpaces(s: string): (r: string)
    ensures |r| <= |s|
  {
    if s == [] then []
    else if IsSpace(s[0]) then StripSpaces(s[1..])
    else [s[0]] + StripSpaces(s[1..])
  }

  lemma {:induction false} StripSpacesLeavesNone(s: string)
    ensures NoSpaces(StripSpaces(s))
  {
    if s != [] {
      StripSpacesLeavesNone(s[1..]);
    }
  }

  lemma {:induction false} StripSpacesKeepsClean(s: string)
    requires NoSpaces(s)
    ensures StripSpaces(s) == s
  {
    if s != [] {
      StripSpacesKeepsClean(s[1..]);
    }
  }

  lemma {:induction false} StripSpacesIdempotent(s: string)
    ensures StripSpaces(StripSpaces(s)) == StripSpaces(s)
  {
    StripSpacesLeavesNone(s);
    StripSpacesKeepsClean(StripSpaces(s));
  }

  function TrimStart(s: string): (r: string)
    ensures |r| <= |s|
    ensures r == s[|s| - |r|..]
  {
    if s != [] && IsSpace(s[0]) then TrimStart(s[1..]) else s
  }

  function TrimEnd(s: string): (r: string)
    ensures |r| <= |s|
    ensures r == s[..|r|]
  {
    if s != [] && IsSpace(s[|s| - 1]) then TrimEnd(s[..|s| - 1]) else s
  }

  /** `trim()`: white space removed from both ends. */
  function Trim(s: string): string {
    TrimStart(TrimEnd(s))
  }

  lemma {:induction false} TrimStartFirst(s: string)
    ensures TrimStart(s) == [] || !IsSpace(TrimStart(s)[0])
  {
    if s != [] && IsSpace(s[0]) {
      TrimStartFirst(s[1..]);
    }
  }

  lemma {:induction false} TrimEndLast(s: string)
    ensures TrimEnd(s) == [] || !IsSpace(TrimEnd(s)[|TrimEnd(s)| - 1])
  {
    if s != [] && IsSpace(s[|s| - 1]) {
      TrimEndLast(s[..|s| - 1]);
    }
  }

  /** The result of `trim()` neither starts nor ends with white space, and is
      a contiguous piece of the input. */
  lemma {:induction false} TrimEnds(s: string)
    ensures var t := Trim(s);
      t == [] || (!IsSpace(t[0]) && !IsSpace(t[|t| - 1]))
  {
    var e := TrimEnd(s);
    TrimEndLast(s);
    TrimStartFirst(e);
    var t := TrimStart(e);
    if t != [] {
      assert t[|t| - 1] == e[|e| - 1];
    }
  }

  lemma {:induction false} TrimKeepsClean(s: string)
    requires NoSpaces(s)
    ensures Trim(s) == s
  {
    if s != [] {
      assert !IsSpace(s[|s| - 1]);
      assert !IsSpace(s[0]);
    }
  }

  /** A string with no white space at either end is its own trim. */
  lemma {:induction false} TrimOfClean(s: string)
    requires s == [] || (!IsSpace(s[0]) && !IsSpace(s[|s| - 1]))
    ensures Trim(s) == s
  {
  }

  /** `String.prototype.includes`: `sub` occurs in `s` at some position. */
  ghost predicate Contains(s: string, sub: string) {
    exists k :: OccursAt(s, sub, k)
  }

  predicate OccursAt(s: string, sub: string, k: int) {
    0 <= k <= |s| - |sub| && s[k..k + |sub|] == sub
  }

  /** A left-to-right search for `sub`, as `includes` performs it. */
  function Search(s: string, sub: string): (found: bool)
    decreases |s|
  {
    if |sub| > |s| then false
    else if s[..|sub|] == sub then true
    else Search(s[1..], sub)
  }

  lemma {:induction false} SearchFindsOccurrence(s: string, sub: string)
    ensures Search(s, sub) <==> Contains(s, sub)
    decreases |s|
  {
    if |sub| > |s| {
    } else if s[..|sub|] == sub {
      assert OccursAt(s, sub, 0);
    } else {
      SearchFindsOccurrence(s[1..], sub);
      if Contains(s, sub) {
        var k :| OccursAt(s, sub, k);
        OccursInTail(s, sub, k);
      }
      if Contains(s[1..], sub) {
        var k :| OccursAt(s[1..], sub, k);
        OccursFromTail(s, sub, k);
      }
    }
  }

  lemma {:induction false} OccursInTail(s: string, sub: string, k: int)
    requires OccursAt(s, sub, k) && k != 0
    ensures OccursAt(s[1..], sub, k - 1)
  {
    assert s[1..][k - 1..k - 1 + |sub|] == s[k..k + |sub|];
  }

  lemma {:induction false} OccursFromTail(s: string, sub: string, k: int)
    requires s != [] && OccursAt(s[1..], sub, k)
    ensures OccursAt(s, sub, k + 1)
  {
    assert s[k + 1..k + 1 + |sub|] == s[1..][k..k + |sub|];
  }

  /** `str.replace("#", "")`: only the first occurrence is removed, every
      other character is kept in order. */
  function RemoveFirstChar(s: string, c: char): (r: string)
    ensures c in s ==> |r| == |s| - 1
    ensures c in s ==> r == s[..FirstIndex(s, c)] + s[FirstIndex(s, c) + 1..]
    ensures c !in s ==> r == s
  {
    if s == [] then []
    else if s[0] == c then s[1..]
    else
      var rest := RemoveFirstChar(s[1..], c);
      if c in s then
        SpliceAfterHead(s, c);
        [s[0]] + rest
      else
        [s[0]] + rest
  }

  /** Splicing out the first `c` of a text that does not start with `c`
      keeps the head and splices the tail. */
  lemma {:induction false} SpliceAfterHead(s: string, c: char)
    requires s != [] && s[0] != c && c in s
    ensures c in s[1..]
    ensures var i := FirstIndex(s[1..], c);
      s[..FirstIndex(s, c)] + s[FirstIndex(s, c) + 1..] == [s[0]] + (s[1..][..i] + s[1..][i + 1..])
  {
    assert c in s[1..];
    var i := FirstIndex(s[1..], c);
    assert FirstIndex(s, c) == i + 1;
    assert s[..i + 1] == [s[0]] + s[1..][..i];
    assert s[i + 2..] == s[1..][i + 1..];
  }

  function CountChar(s: string, c: char): nat {
    if s == [] then 0 else (if s[0] == c then 1 else 0) + CountChar(s[1..], c)
  }

  lemma {:induction false} CountCharAppend(a: string, b: string, c: char)
    ensures CountChar(a + b, c) == CountChar(a, c) + CountChar(b, c)
  {
    if a != [] {
      CountCharAppend(a[1..], b, c);
      assert (a + b)[1..] == a[1..] + b;
    } else {
      assert a + b == b;
    }
  }

  lemma {:induction false} CountCharAbsent(s: string, c: char)
    ensures CountChar(s, c) == 0 <==> c !in s
  {
    if s != [] {
      CountCharAbsent(s[1..], c);
    }
  }

  /** `s.split(c)` for a one-character separator. */
  function Split(s: string, c: char): (parts: seq<string>)
    ensures |parts| >= 1
  {
    if s == [] then [""]
    else
      var rest := Split(s[1..], c);
      if s[0] == c then [""] + rest else [[s[0]] + rest[0]] + rest[1..]
  }

  /** `parts.join(sep)`. */
  function Join(parts: seq<string>, sep: string): string {
    if parts == [] then ""
    else if |parts| == 1 then parts[0]
    else parts[0] + sep + Join(parts[1..], sep)
  }

  lemma {:induction false} SplitCount(s: string, c: char)
    ensures |Split(s, c)| == CountChar(s, c) + 1
  {
    if s != [] {
      SplitCount(s[1..], c);
    }
  }

  lemma {:induction false} SplitPiecesFree(s: string, c: char)
    ensures forall i :: 0 <= i < |Split(s, c)| ==> c !in Split(s, c)[i]
  {
    if s != [] {
      SplitPiecesFree(s[1..], c);
    }
  }

  /** Joining the pieces of a split with the same separator gives the input
      back. */
  lemma {:induction false} JoinSplit(s: string, c: char)
    ensures Join(Split(s, c), [c]) == s
  {
    if s != [] {
      JoinSplit(s[1..], c);
      if s[0] == c {
        JoinSplitAtSeparator(s, c);
      } else {
        JoinSplitInPiece(s, c);
      }
    }
  }

  lemma {:induction false} JoinSplitAtSeparator(s: string, c: char)
    requires s != [] && s[0] == c
    requires Join(Split(s[1..], c), [c]) == s[1..]
    ensures Join(Split(s, c), [c]) == s
  {
    assert s == [c] + s[1..];
    JoinCons("", Split(s[1..], c), [c]);
  }

  lemma {:induction false} JoinSplitInPiece(s: string, c: char)
    requires s != [] && s[0] != c
    requires Join(Split(s[1..], c), [c]) == s[1..]
    ensures Join(Split(s, c), [c]) == s
  {
    var rest := Split(s[1..], c);
    assert s == [s[0]] + s[1..];
    if |rest| == 1 {
      assert Split(s, c) == [[s[0]] + rest[0]];
    } else {
      assert rest == [rest[0]] + rest[1..];
      JoinCons(rest[0], rest[1..], [c]);
      JoinCons([s[0]] + rest[0], rest[1..], [c]);
      assert [s[0]] + rest[0] + [c] + Join(rest[1..], [c]) == [s[0]] + (rest[0] + [c] + Join(rest[1..], [c]));
    }
  }

  lemma {:induction false} JoinCons(p: string, ps: seq<string>, sep: string)
    requires ps != []
    ensures Join([p] + ps, sep) == p + sep + Join(ps, sep)
  {
    assert ([p] + ps)[1..] == ps;
  }

  /** `s.charAt(0).toUpperCase() + s.slice(1)`. */
  function Capitalize(s: string): (r: string)
    ensures |r| == |s|
    ensures s != [] ==> r[0] == UpperChar(s[0]) && r[1..] == s[1..]
  {
    if s == [] then "" else [UpperChar(s[0])] + s[1..]
  }

  function DigitChar(d: nat): char
    requires d < 10
  {
    ('0' as int + d) as char
  }

  /** The decimal text of a non-negative number, as a template literal
      renders it. */
  function NatToString(n: nat): (r: string)
    ensures r != [] && AllDigits(r)
  {
    if n < 10 then [DigitChar(n)] else NatToString(n / 10) + [DigitChar(n % 10)]
  }

  function DigitValue(c: char): nat
    requires IsDigit(c)
  {
    c as int - '0' as int
  }

  /** The number a string of decimal digits denotes. */
  function DecimalValue(s: string): nat
    requires AllDigits(s)
  {
    if s == [] then 0 else DecimalValue(s[..|s| - 1]) * 10 + DigitValue(s[|s| - 1])
  }

  lemma {:induction false} NatToStringValue(n: nat)
    ensures DecimalValue(NatToString(n)) == n
  {
    if n >= 10 {
      NatToStringValue(n / 10);
      var r := NatToString(n);
      assert r[..|r| - 1] == NatToString(n / 10);
    }
  }
}
