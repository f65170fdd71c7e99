/** The string primitives the dashboard's rules use: `toLowerCase`, `includes`, `trim`,
    the `\s` and `\d` regular-expression classes, and `startsWith`. */
module Text {
  import opened Seqs

  /** ECMAScript WhiteSpace and LineTerminator code points: the set that both
      `String.prototype.trim` and the regular-expression class `\s` use. */
  predicate IsSpace(c: char) {
    var n := c as int;
    n == 0x09 || n == 0x0A || n == 0x0B || n == 0x0C || n == 0x0D || n == 0x20
    || n == 0xA0 || n == 0x1680 || (0x2000 <= n <= 0x200A) || n == 0x2028 || n == 0x2029
    || n == 0x202F || n == 0x205F || n == 0x3000 || n == 0xFEFF
  }

  /** The regular-expression class `\d`: ASCII decimal digits only. */
  predicate IsDigit(c: char) { '0' <= c <= '9' }

  /** Case folding, restricted to ASCII letters (see README, "Left out"). */
  function LowerChar(c: char): char {
    if 'A' <= c <= 'Z' then (c as int + 32) as char else c
  }

  function Lower(s: string): string {
    seq(|s|, i requires 0 <= i < |s| => LowerChar(s[i]))
  }

  /** `t` occurs in `s` starting at index `i`. */
  predicate OccursAt(s: string, t: string, i: int) {
    0 <= i && i + |t| <= |s| && s[i..i + |t|] == t
  }

  /** `s.includes(t)`, computed by trying each start position in turn. */
  function Includes(s: string, t: string): bool
    decreases |s|
  {
    if |t| > |s| then false
    else if s[..|t|] == t then true
    else Includes(s[1..], t)
  }

  /** The position-by-position search finds `t` exactly when `t` occurs somewhere. */
  lemma {:induction false} IncludesSpec(s: string, t: string)
    ensures Includes(s, t) <==> exists i :: OccursAt(s, t, i)
    decreases |s|
  {
    if |t| > |s| {
    } else if s[..|t|] == t {
      assert OccursAt(s, t, 0);
    } else {
      IncludesSpec(s[1..], t);
      if Includes(s[1..], t) {
        var i :| OccursAt(s[1..], t, i);
        assert s[1..][i..i + |t|] == s[i + 1..i + 1 + |t|];
        assert OccursAt(s, t, i + 1);
      }
      if exists i :: OccursAt(s, t, i) {
        var i :| OccursAt(s, t, i);
        assert i != 0;
        assert s[1..][i - 1..i - 1 + |t|] == s[i..i + |t|];
        assert OccursAt(s[1..], t, i - 1);
      }
    }
  }

  /** The empty string is included in every string. */
  lemma IncludesEmpty(s: string)
    ensures Includes(s, "")
  {
    assert s[..0] == "";
  }

  /** `s` is empty after `trim()`. */
  predicate IsBlank(s: string) {
    forall i :: 0 <= i < |s| ==> IsSpace(s[i])
  }

  function TrimStart(s: string): (r: string)
    ensures |r| <= |s| && r == s[|s| - |r|..]
    ensures forall i :: 0 <= i < |s| - |r| ==> IsSpace(s[i])
    ensures r == [] || !IsSpace(r[0])
    decreases |s|
  {
    if s != [] && IsSpace(s[0]) then TrimStart(s[1..]) else s
  }

  function TrimEnd(s: string): (r: string)
    ensures |r| <= |s| && r == s[..|r|]
    ensures forall i :: |r| <= i < |s| ==> IsSpace(s[i])
    ensures r == [] || !IsSpace(r[|r| - 1])
    decreases |s|
  {
    if s != [] && IsSpace(s[|s| - 1]) then TrimEnd(s[..|s| - 1]) else s
  }

  /** `s.trim()`: the longest piece of `s` that neither starts nor ends with white space;
      it is empty exactly when `s` is blank. */
  function Trim(s: string): (r: string)
    ensures r == "" <==> IsBlank(s)
    ensures r != "" ==> !IsSpace(r[0]) && !IsSpace(r[|r| - 1])
    ensures exists i :: OccursAt(s, r, i) && IsBlank(s[..i]) && IsBlank(s[i + |r|..])
  {
    var front := TrimStart(s);
    var r := TrimEnd(front);
    TrimmedPiece(s, front, r);
    r
  }

  /** Cutting white space off the front of `s` (giving `front`) and then off the back
      of `front` (giving `r`) leaves a piece of `s` with non-space ends, empty exactly
      when `s` is blank. */
  lemma TrimmedPiece(s: string, front: string, r: string)
    requires |front| <= |s| && front == s[|s| - |front|..]
    requires forall i :: 0 <= i < |s| - |front| ==> IsSpace(s[i])
    requires front == [] || !IsSpace(front[0])
    requires |r| <= |front| && r == front[..|r|]
    requires forall i :: |r| <= i < |front| ==> IsSpace(front[i])
    requires r == [] || !IsSpace(r[|r| - 1])
    ensures r == "" <==> IsBlank(s)
    ensures r != "" ==> !IsSpace(r[0]) && !IsSpace(r[|r| - 1])
    ensures OccursAt(s, r, |s| - |front|)
    ensures IsBlank(s[..|s| - |front|]) && IsBlank(s[|s| - |front| + |r|..])
  {
    var k := |s| - |front|;
    forall j | 0 <= j < |r|
      ensures s[k..k + |r|][j] == r[j]
    {
      assert r[j] == front[j] == s[k + j];
    }
    if r == "" {
      assert front == "";
    }
    if r != "" {
      assert r[0] == front[0];
    }
  }

  /** `s.startsWith(prefix)`. */
  predicate StartsWith(s: string, prefix: string) {
    |prefix| <= |s| && s[..|prefix|] == prefix
  }

  /** `s.replace(/\D/g, '')`: every decimal digit of `s`, as often as it occurs and in
      order, and nothing else. */
  function Digits(s: string): (r: string)
    ensures forall i :: 0 <= i < |r| ==> IsDigit(r[i])
    ensures IsSubsequence(r, s)
    ensures forall c :: c in r <==> c in s && IsDigit(c)
    ensures forall c :: multiset(r)[c] == if IsDigit(c) then multiset(s)[c] else 0
  {
    KeepCounts(s, IsDigit);
    Keep(s, IsDigit)
  }
}
