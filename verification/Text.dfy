/** The string operations of the host language that several components use. */
module Text {

  /** White space as `String.prototype.trim` and the regular-expression class `\s` take it. */
  predicate IsSpace(c: char) {
    var n := c as int;
    || 0x09 <= n <= 0x0D || n == 0x20 || n == 0xA0 || n == 0x1680 || 0x2000 <= n <= 0x200A
    || n == 0x2028 || n == 0x2029 || n == 0x202F || n == 0x205F || n == 0x3000 || n == 0xFEFF
  }

  function TrimStart(s: string): string {
    if s != [] && IsSpace(s[0]) then TrimStart(s[1..]) else s
  }

  function TrimEnd(s: string): string {
    if s != [] && IsSpace(s[|s| - 1]) then TrimEnd(s[..|s| - 1]) else s
  }

  function Trim(s: string): string {
    TrimEnd(TrimStart(s))
  }

  predicate Trimmed(s: string) {
    s == [] || (!IsSpace(s[0]) && !IsSpace(s[|s| - 1]))
  }

  lemma TrimEndKeepsStart(s: string)
    ensures var t := TrimEnd(s); t <= s && (t != [] ==> !IsSpace(t[|t| - 1]))
  {
  }

  /** Trimming leaves a trimmed string, and changes nothing else. */
  lemma TrimIsTrimmed(s: string)
    ensures Trimmed(Trim(s))
    ensures Trim(s) == s <==> Trimmed(s)
    ensures Trim(Trim(s)) == Trim(s)
  {
    TrimStartIsClean(s);
    TrimEndKeepsStart(TrimStart(s));
    if Trimmed(s) {
    }
  }

  predicate Blank(s: string) {
    forall i :: 0 <= i < |s| ==> IsSpace(s[i])
  }

  lemma {:induction false} TrimStartCuts(s: string) returns (a: string)
    ensures s == a + TrimStart(s) && Blank(a)
  {
    a := "";
    if s != [] && IsSpace(s[0]) {
      var b := TrimStartCuts(s[1..]);
      a := [s[0]] + b;
      assert s == [s[0]] + s[1..];
    }
  }

  lemma {:induction false} TrimEndCuts(s: string) returns (b: string)
    ensures s == TrimEnd(s) + b && Blank(b)
  {
    b := "";
    if s != [] && IsSpace(s[|s| - 1]) {
      var a := TrimEndCuts(s[..|s| - 1]);
      b := a + [s[|s| - 1]];
      assert s == s[..|s| - 1] + [s[|s| - 1]];
    }
  }

  /** Trimming takes off white space at both ends and nothing else: the result is the trimmed string that is left of the
      given one between two blank ones. */
  lemma TrimExactly(s: string, t: string)
    ensures Trim(s) == t <==> Trimmed(t) && exists a, b :: Blank(a) && Blank(b) && s == a + t + b
  {
    if Trim(s) == t {
      TrimIsTrimmed(s);
      var a := TrimStartCuts(s);
      var b := TrimEndCuts(TrimStart(s));
      assert s == a + t + b;
    }
    if Trimmed(t) {
      if a, b :| Blank(a) && Blank(b) && s == a + t + b {
        TrimBlank(a, t, b);
      }
    }
  }

  lemma {:induction false} TrimBlank(a: string, t: string, b: string)
    requires Blank(a) && Blank(b) && Trimmed(t)
    ensures Trim(a + t + b) == t
    decreases |a|
  {
    var s := a + t + b;
    if a != "" {
      assert s[1..] == a[1..] + t + b;
      TrimBlank(a[1..], t, b);
    } else if t == "" {
      assert s == b;
      TrimOfBlank(b);
    } else {
      assert s == t + b && s[0] == t[0];
      TrimEndBlank(t, b);
    }
  }

  lemma {:induction false} TrimOfBlank(b: string)
    requires Blank(b)
    ensures TrimStart(b) == ""
  {
    if b != "" {
      TrimOfBlank(b[1..]);
    }
  }

  lemma {:induction false} TrimEndBlank(t: string, b: string)
    requires Blank(b) && t != "" && !IsSpace(t[|t| - 1])
    ensures TrimEnd(t + b) == t
    decreases |b|
  {
    if b == "" {
      assert t + b == t;
    } else {
      assert (t + b)[..|t + b| - 1] == t + b[..|b| - 1];
      TrimEndBlank(t, b[..|b| - 1]);
    }
  }

  lemma TrimStartIsClean(s: string)
    ensures TrimStart(s) != [] ==> !IsSpace(TrimStart(s)[0])
  {
  }

  predicate IsDigit(c: char) {
    '0' <= c <= '9'
  }

  predicate IsLower(c: char) {
    'a' <= c <= 'z'
  }

  predicate IsUpper(c: char) {
    'A' <= c <= 'Z'
  }

  predicate IsHex(c: char) {
    IsDigit(c) || 'a' <= c <= 'f' || 'A' <= c <= 'F'
  }

  /** Whether two equal characters `c` stand next to each other. */
  predicate HasDouble(s: string, c: char) {
    exists i :: 0 <= i < |s| - 1 && s[i] == c && s[i + 1] == c
  }
}
