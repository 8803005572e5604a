/** Cell values of a pandas frame, the orders pandas sorts them by, and the
    text clean-up (`str.strip().str.lower()`) the cleaning step applies. */
module Cells {

  /** One cell: a number (int and float columns alike), a piece of text, or
      the missing marker pandas writes as NaN, None or NaT. */
  datatype Cell = Missing | Num(value: real) | Str(text: string)

  // ---------------------------------------------------------------------
  // Python's order on str
  // ---------------------------------------------------------------------

  /** Python's `s <= t` on `str`: lexicographic by code point, a proper
      prefix before its extensions. */
  predicate StrLe(s: string, t: string)
    decreases |s|
  {
    if |s| == 0 then true
    else if |t| == 0 then false
    else if s[0] != t[0] then s[0] < t[0]
    else StrLe(s[1..], t[1..])
  }

  lemma {:induction false} StrLeReflexive(s: string)
    ensures StrLe(s, s)
    decreases |s|
  {
    if |s| > 0 {
      StrLeReflexive(s[1..]);
    }
  }

  lemma {:induction false} StrLeTotal(s: string, t: string)
    ensures StrLe(s, t) || StrLe(t, s)
    decreases |s|
  {
    if |s| > 0 && |t| > 0 && s[0] == t[0] {
      StrLeTotal(s[1..], t[1..]);
    }
  }

  lemma {:induction false} StrLeTransitive(s: string, t: string, u: string)
    requires StrLe(s, t) && StrLe(t, u)
    ensures StrLe(s, u)
    decreases |s|
  {
    if |s| > 0 && |t| > 0 && |u| > 0 && s[0] == t[0] && t[0] == u[0] {
      StrLeTransitive(s[1..], t[1..], u[1..]);
    }
  }

  lemma {:induction false} StrLeAntisymmetric(s: string, t: string)
    requires StrLe(s, t) && StrLe(t, s)
    ensures s == t
    decreases |s|
  {
    if |s| > 0 {
      StrLeAntisymmetric(s[1..], t[1..]);
      assert s == [s[0]] + s[1..];
      assert t == [t[0]] + t[1..];
    }
  }

  // ---------------------------------------------------------------------
  // The order of cells
  // ---------------------------------------------------------------------

  /** The order pandas puts the cells of one column in: numbers by value,
      then text as Python compares it, missing cells last.  Numbers before
      text is what groupby's key sort does with a mixed column. */
  predicate CellLe(a: Cell, b: Cell)
  {
    match a
    case Missing => b.Missing?
    case Num(x) => (match b case Num(y) => x <= y case _ => true)
    case Str(s) => (match b case Missing => true case Num(_) => false case Str(t) => StrLe(s, t))
  }

  /** The order sort_values(ascending=...) leaves a column in: present cells
      ascending or descending, missing cells last either way. */
  predicate KeyLe(ascending: bool, a: Cell, b: Cell)
  {
    if ascending then CellLe(a, b)
    else b.Missing? || (!a.Missing? && CellLe(b, a))
  }

  lemma CellLeReflexive(a: Cell)
    ensures CellLe(a, a)
  {
    if a.Str? {
      StrLeReflexive(a.text);
    }
  }

  lemma CellLeTotal(a: Cell, b: Cell)
    ensures CellLe(a, b) || CellLe(b, a)
  {
    if a.Str? && b.Str? {
      StrLeTotal(a.text, b.text);
    }
  }

  lemma CellLeTransitive(a: Cell, b: Cell, c: Cell)
    requires CellLe(a, b) && CellLe(b, c)
    ensures CellLe(a, c)
  {
    if a.Str? && b.Str? && c.Str? {
      StrLeTransitive(a.text, b.text, c.text);
    }
  }

  lemma CellLeAntisymmetric(a: Cell, b: Cell)
    requires CellLe(a, b) && CellLe(b, a)
    ensures a == b
  {
    if a.Str? && b.Str? {
      StrLeAntisymmetric(a.text, b.text);
    }
  }

  lemma KeyLeTotal(ascending: bool, a: Cell, b: Cell)
    ensures KeyLe(ascending, a, b) || KeyLe(ascending, b, a)
  {
    CellLeTotal(a, b);
  }

  lemma KeyLeTransitive(ascending: bool, a: Cell, b: Cell, c: Cell)
    requires KeyLe(ascending, a, b) && KeyLe(ascending, b, c)
    ensures KeyLe(ascending, a, c)
  {
    if ascending {
      CellLeTransitive(a, b, c);
    } else if !c.Missing? {
      CellLeTransitive(c, b, a);
    }
  }

  // ---------------------------------------------------------------------
  // str.strip() and str.lower()
  // ---------------------------------------------------------------------

  /** Python's `str.isspace()` on one character. */
  predicate IsSpace(c: char)
  {
    || c == ' '
    || ('\t' <= c <= '\r')
    || ('\U{1C}' <= c <= '\U{1F}')
    || c == '\U{85}' || c == '\U{A0}' || c == '\U{1680}'
    || ('\U{2000}' <= c <= '\U{200A}')
    || c == '\U{2028}' || c == '\U{2029}' || c == '\U{202F}' || c == '\U{205F}' || c == '\U{3000}'
  }

  /** Drops leading white space, and only that. */
  function TrimStart(s: string): (r: string)
    ensures |r| <= |s| && r == s[|s| - |r|..]
    ensures |r| > 0 ==> !IsSpace(r[0])
    ensures forall k :: 0 <= k < |s| - |r| ==> IsSpace(s[k])
    decreases |s|
  {
    if |s| > 0 && IsSpace(s[0]) then
      var r := TrimStart(s[1..]);
      assert forall k :: 1 <= k < |s| - |r| ==> s[k] == s[1..][k - 1];
      r
    else s
  }

  /** Drops trailing white space, and only that. */
  function TrimEnd(s: string): (r: string)
    ensures |r| <= |s| && r == s[..|r|]
    ensures |r| > 0 ==> !IsSpace(r[|r| - 1])
    ensures forall k :: |r| <= k < |s| ==> IsSpace(s[k])
    decreases |s|
  {
    if |s| > 0 && IsSpace(s[|s| - 1]) then
      var r := TrimEnd(s[..|s| - 1]);
      assert forall k :: |r| <= k < |s| - 1 ==> s[k] == s[..|s| - 1][k];
      r
    else s
  }

  /** How many white-space characters `s` starts with. */
  function LeadingSpaces(s: string): (n: nat)
    ensures n <= |s|
  {
    |s| - |TrimStart(s)|
  }

  /** Python's `str.strip()` with no argument: the text between the
      leading and the trailing white space. */
  function Strip(s: string): (r: string)
    ensures |r| > 0 ==> !IsSpace(r[0]) && !IsSpace(r[|r| - 1])
    ensures LeadingSpaces(s) + |r| <= |s| && r == s[LeadingSpaces(s)..LeadingSpaces(s) + |r|]
    ensures forall k :: 0 <= k < LeadingSpaces(s) ==> IsSpace(s[k])
    ensures forall k :: LeadingSpaces(s) + |r| <= k < |s| ==> IsSpace(s[k])
  {
    var u := TrimStart(s);
    var a := |s| - |u|;
    var r := TrimEnd(u);
    assert forall k :: a + |r| <= k < |s| ==> s[k] == u[k - a];
    r
  }

  function LowerChar(c: char): char
  {
    if 'A' <= c <= 'Z' then (c as int + 32) as char else c
  }

  /** `str.lower()` on the ASCII letters. */
  function Lower(s: string): string
  {
    seq(|s|, i requires 0 <= i < |s| => LowerChar(s[i]))
  }

  /** The clean-up clean_data applies to the text of an object column. */
  function Normalize(s: string): string
  {
    Lower(Strip(s))
  }

  lemma LowerCharKeepsSpace(c: char)
    ensures IsSpace(LowerChar(c)) == IsSpace(c)
  {
  }

  lemma {:induction false} TrimStartOfLower(s: string)
    ensures TrimStart(Lower(s)) == Lower(TrimStart(s))
    decreases |s|
  {
    if |s| > 0 {
      var l := Lower(s);
      assert l[0] == LowerChar(s[0]);
      LowerCharKeepsSpace(s[0]);
      if IsSpace(s[0]) {
        assert l[1..] == Lower(s[1..]);
        TrimStartOfLower(s[1..]);
      }
    }
  }

  lemma {:induction false} TrimEndOfLower(s: string)
    ensures TrimEnd(Lower(s)) == Lower(TrimEnd(s))
    decreases |s|
  {
    if |s| > 0 {
      var l := Lower(s);
      assert l[|s| - 1] == LowerChar(s[|s| - 1]);
      LowerCharKeepsSpace(s[|s| - 1]);
      if IsSpace(s[|s| - 1]) {
        assert l[..|s| - 1] == Lower(s[..|s| - 1]);
        TrimEndOfLower(s[..|s| - 1]);
      }
    }
  }

  /** Stripped text has nothing left to strip at either end. */
  lemma StrippedIsTrimmed(s: string)
    ensures TrimStart(Strip(s)) == Strip(s) && TrimEnd(Strip(s)) == Strip(s)
  {
  }

  lemma LowerTwice(t: string)
    ensures Lower(Lower(t)) == Lower(t)
  {
  }

  /** Cleaning text twice changes nothing more than cleaning it once. */
  lemma NormalizeIdempotent(s: string)
    ensures Normalize(Normalize(s)) == Normalize(s)
  {
    var t := Strip(s);
    StrippedIsTrimmed(s);
    TrimStartOfLower(t);
    TrimEndOfLower(t);
    LowerTwice(t);
  }
}
