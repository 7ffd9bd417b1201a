/** The Python string operations the sources rely on, at character level. */
module Text {
  import opened Results

  // ----- characters

  /** The blanks that int() skips: C's isspace. */
  predicate IsCSpace(c: char) {
    c == ' ' || c == '\t' || c == '\n' || c == '\r' || c == '\U{0B}' || c == '\U{0C}'
  }

  /** The blanks that strip() removes: str.isspace, with the four separator controls as well. */
  predicate IsSpace(c: char) {
    IsCSpace(c) || '\U{1C}' <= c <= '\U{1F}'
  }

  predicate IsDigit(c: char) {
    '0' <= c <= '9'
  }

  function DigitChar(d: nat): (c: char)
    requires d < 10
    ensures IsDigit(c) && DigitValue(c) == d
  {
    ('0' as int + d) as char
  }

  function DigitValue(c: char): (d: nat)
    requires IsDigit(c)
    ensures d < 10
  {
    c as int - '0' as int
  }

  function LowerChar(c: char): char {
    if 'A' <= c <= 'Z' then (c as int + 32) as char else c
  }

  // ----- strip, lower, split, join

  function LTrim(s: string, blank: char -> bool): (r: string)
    ensures r != "" ==> !blank(r[0])
    ensures forall c :: c in r ==> c in s
  {
    if s != "" && blank(s[0]) then LTrim(s[1..], blank) else s
  }

  function RTrim(s: string, blank: char -> bool): (r: string)
    ensures r <= s
    ensures r != "" ==> !blank(r[|r| - 1])
  {
    if s != "" && blank(s[|s| - 1]) then RTrim(s[..|s| - 1], blank) else s
  }

  /** s without the blanks at its two ends. */
  function Trim(s: string, blank: char -> bool): (r: string)
    ensures r != "" ==> !blank(r[0]) && !blank(r[|r| - 1])
    ensures forall c :: c in r ==> c in s
  {
    RTrim(LTrim(s, blank), blank)
  }

  /** str.strip() */
  function Strip(s: string): (r: string)
    ensures r != "" ==> !IsSpace(r[0]) && !IsSpace(r[|r| - 1])
    ensures forall c :: c in r ==> c in s
  {
    Trim(s, IsSpace)
  }

  predicate AllBlank(s: string, blank: char -> bool) {
    forall i :: 0 <= i < |s| ==> blank(s[i])
  }

  lemma {:induction false} LTrimPadding(p: string, s: string, blank: char -> bool)
    requires AllBlank(p, blank) && (s != "" ==> !blank(s[0]))
    ensures LTrim(p + s, blank) == s
  {
    if p == "" {
      assert p + s == s;
    } else {
      assert (p + s)[1..] == p[1..] + s;
      LTrimPadding(p[1..], s, blank);
    }
  }

  lemma {:induction false} RTrimPadding(s: string, q: string, blank: char -> bool)
    requires AllBlank(q, blank) && (s != "" ==> !blank(s[|s| - 1]))
    ensures RTrim(s + q, blank) == s
  {
    if q == "" {
      assert s + q == s;
    } else {
      assert (s + q)[..|s + q| - 1] == s + q[..|q| - 1];
      RTrimPadding(s, q[..|q| - 1], blank);
    }
  }

  /** Trimming removes any padding and nothing else. */
  lemma TrimPadding(p: string, s: string, q: string, blank: char -> bool)
    requires AllBlank(p, blank) && AllBlank(q, blank)
    requires s != "" && !blank(s[0]) && !blank(s[|s| - 1])
    ensures Trim(p + s + q, blank) == s
  {
    assert p + s + q == p + (s + q);
    LTrimPadding(p, s + q, blank);
    RTrimPadding(s, q, blank);
  }

  /** What trimming leaves, and the padding around it. */
  lemma {:induction false} TrimSplits(s: string, blank: char -> bool) returns (p: string, q: string)
    ensures s == p + Trim(s, blank) + q && AllBlank(p, blank) && AllBlank(q, blank)
  {
    p := LTrimSplits(s, blank);
    q := RTrimSplits(LTrim(s, blank), blank);
  }

  lemma {:induction false} LTrimSplits(s: string, blank: char -> bool) returns (p: string)
    ensures s == p + LTrim(s, blank) && AllBlank(p, blank)
  {
    p := "";
    if s != "" && blank(s[0]) {
      p := LTrimSplits(s[1..], blank);
      p := [s[0]] + p;
    }
  }

  lemma {:induction false} RTrimSplits(s: string, blank: char -> bool) returns (q: string)
    ensures s == RTrim(s, blank) + q && AllBlank(q, blank)
  {
    q := "";
    if s != "" && blank(s[|s| - 1]) {
      q := RTrimSplits(s[..|s| - 1], blank);
      q := q + [s[|s| - 1]];
    }
  }

  /** str.lower() */
  function Lower(s: string): (r: string)
    ensures |r| == |s|
  {
    seq(|s|, i requires 0 <= i < |s| => LowerChar(s[i]))
  }

  /** str.split(sep) for a one-character separator: never empty, keeps empty segments. */
  function Split(s: string, sep: char): (parts: seq<string>)
    ensures parts != []
    ensures forall p :: p in parts ==> sep !in p
  {
    if s == "" then [""]
    else
      var rest := Split(s[1..], sep);
      if s[0] == sep then [""] + rest else [[s[0]] + rest[0]] + rest[1..]
  }

  /** sep.join(parts) */
  function Join(parts: seq<string>, sep: string): string {
    if parts == [] then ""
    else if |parts| == 1 then parts[0]
    else parts[0] + sep + Join(parts[1..], sep)
  }

  lemma {:induction false} SplitAfterFirst(a: string, b: string, sep: char)
    requires sep !in a
    ensures Split(a + [sep] + b, sep) == [a] + Split(b, sep)
  {
    var s := a + [sep] + b;
    if a == "" {
      assert s[1..] == b;
    } else {
      assert s[1..] == a[1..] + [sep] + b;
      SplitAfterFirst(a[1..], b, sep);
      assert a == [a[0]] + a[1..];
    }
  }

  lemma {:induction false} SplitWithoutSeparator(a: string, sep: char)
    requires sep !in a
    ensures Split(a, sep) == [a]
  {
    if a != "" {
      SplitWithoutSeparator(a[1..], sep);
      assert a == [a[0]] + a[1..];
    }
  }

  /** Splitting undoes joining when no part contains the separator. */
  lemma {:induction false} SplitJoin(parts: seq<string>, sep: char)
    requires parts != []
    requires forall p :: p in parts ==> sep !in p
    ensures Split(Join(parts, [sep]), sep) == parts
  {
    if |parts| == 1 {
      SplitWithoutSeparator(parts[0], sep);
    } else {
      assert forall p :: p in parts[1..] ==> p in parts;
      SplitJoin(parts[1..], sep);
      assert parts[0] in parts;
      SplitAfterFirst(parts[0], Join(parts[1..], [sep]), sep);
    }
  }

  /** Position of the first occurrence of c. */
  function IndexOf(s: string, c: char): (i: nat)
    requires c in s
    ensures i < |s| && s[i] == c && c !in s[..i]
  {
    if s[0] == c then 0
    else
      var i := 1 + IndexOf(s[1..], c);
      assert s[..i] == [s[0]] + s[1..][..i - 1];
      i
  }

  // ----- decimal integers

  /** str(n) for n >= 0 */
  function NatText(n: nat): (s: string)
    ensures s != ""
    ensures forall c :: c in s ==> IsDigit(c)
  {
    if n < 10 then [DigitChar(n)] else NatText(n / 10) + [DigitChar(n % 10)]
  }

  /** str(n) */
  function IntText(n: int): (s: string)
    ensures s != "" && IsDigit(s[|s| - 1])
    ensures forall c :: c in s ==> IsDigit(c) || c == '-'
    ensures n < 0 <==> s[0] == '-'
    ensures n >= 0 ==> forall c :: c in s ==> IsDigit(c)
  {
    if n < 0 then "-" + NatText(-n)
    else
      assert NatText(n)[0] in NatText(n);
      NatText(n)
  }

  /** The unsigned body of a decimal literal; one underscore may separate two digits. */
  function NatValue(s: string): Option<nat> {
    if s == "" || !IsDigit(s[|s| - 1]) then None
    else if |s| == 1 then Some(DigitValue(s[0]))
    else
      var front := if s[|s| - 2] == '_' then s[..|s| - 2] else s[..|s| - 1];
      match NatValue(front)
      case None => None
      case Some(v) => Some(10 * v + DigitValue(s[|s| - 1]))
  }

  /** int(s): surrounding blanks and one sign are accepted; None stands for ValueError. */
  function IntValue(s: string): (r: Option<int>)
    ensures '-' !in s && r.Some? ==> r.value >= 0
  {
    var t := Trim(s, IsCSpace);
    if t != "" && (t[0] == '-' || t[0] == '+') then
      match NatValue(t[1..])
      case None => None
      case Some(v) => Some(if t[0] == '-' then -(v as int) else v as int)
    else
      match NatValue(t)
      case None => None
      case Some(v) => Some(v)
  }

  lemma {:induction false} NatValueOfText(n: nat)
    ensures NatValue(NatText(n)) == Some(n)
  {
    if n >= 10 {
      NatValueOfText(n / 10);
      var s, front := NatText(n), NatText(n / 10);
      assert s[..|s| - 1] == front;
      assert s[|s| - 2] == front[|front| - 1] && s[|s| - 2] in front;
    }
  }

  /** int() undoes str(), so equal decimal texts are equal numbers. */
  lemma IntValueOfText(n: int)
    ensures IntValue(IntText(n)) == Some(n)
  {
    IntTextKept(n);
    if n < 0 {
      assert IntText(n)[1..] == NatText(-n);
      NatValueOfText(-n);
    } else {
      NatValueOfText(n);
    }
  }

  lemma IntTextKept(n: int)
    ensures Trim(IntText(n), IsCSpace) == IntText(n)
    ensures n >= 0 ==> IsDigit(IntText(n)[0])
  {
    var s := IntText(n);
    assert s[|s| - 1] in s && s[0] in s;
    TrimKeeps(s, IsCSpace);
  }

  /** A text whose first and last characters are not blank is left alone by strip. */
  lemma StripKeeps(s: string)
    requires s != "" && !IsSpace(s[0]) && !IsSpace(s[|s| - 1])
    ensures Strip(s) == s
  {
    TrimKeeps(s, IsSpace);
  }

  /** The separator controls are blanks to strip() and not to int(). */
  lemma SeparatorsOnlyStripped(c: char, n: nat)
    requires '\U{1C}' <= c <= '\U{1F}'
    ensures Strip([c] + NatText(n)) == NatText(n) && IntValue([c] + NatText(n)) == None
  {
    var s, t := [c] + NatText(n), NatText(n);
    assert t[0] in t && t[|t| - 1] in t;
    assert s == [c] + t + "";
    TrimPadding([c], t, "", IsSpace);
    TrimKeeps(s, IsCSpace);
    ForeignCharacter(s, 0);
  }

  /** A number's body consists of digits and underscores. */
  lemma {:induction false} ForeignCharacter(s: string, i: nat)
    requires i < |s| && !IsDigit(s[i]) && s[i] != '_'
    ensures NatValue(s) == None
  {
    if |s| > 1 && IsDigit(s[|s| - 1]) {
      var front := if s[|s| - 2] == '_' then s[..|s| - 2] else s[..|s| - 1];
      ForeignCharacter(front, i);
    }
  }

  lemma TrimKeeps(s: string, blank: char -> bool)
    requires s != "" && !blank(s[0]) && !blank(s[|s| - 1])
    ensures Trim(s, blank) == s
  {
    assert LTrim(s, blank) == s;
  }

  // ----- what these operations are, read from outside

  /** The blanks by their code points. */
  lemma BlankCodes(c: char)
    ensures IsCSpace(c) <==> 9 <= c as int <= 13 || c as int == 32
    ensures IsSpace(c) <==> 9 <= c as int <= 13 || 28 <= c as int <= 32
  {
  }

  /** strip() leaves nothing exactly of the texts made of blanks. */
  lemma StripBlank(s: string)
    ensures Strip(s) == "" <==> AllBlank(s, IsSpace)
  {
    var p, q := TrimSplits(s, IsSpace);
    if Strip(s) == "" {
      assert s == p + q;
    }
    if AllBlank(s, IsSpace) {
      LTrimPadding(s, "", IsSpace);
      assert s + "" == s;
    }
  }

  /** lower() turns the capitals into their small letters and keeps everything else. */
  lemma LowerLetters(c: char, i: nat)
    ensures var capitals, small := "ABCDEFGHIJKLMNOPQRSTUVWXYZ", "abcdefghijklmnopqrstuvwxyz";
      && (i < 26 ==> LowerChar(capitals[i]) == small[i])
      && (c !in capitals ==> LowerChar(c) == c)
  {
    var capitals := "ABCDEFGHIJKLMNOPQRSTUVWXYZ";
    if 'A' <= c <= 'Z' {
      assert capitals[c as int - 'A' as int] == c;
    }
  }

  /** str(n) in decimal, most significant digit first. */
  lemma DecimalText(n: nat, d: nat)
    requires d < 10
    ensures IntText(d) == ["0123456789"[d]]
    ensures n > 0 ==> IntText(10 * n + d) == IntText(n) + ["0123456789"[d]]
    ensures n > 0 ==> IntText(-(n as int)) == "-" + IntText(n)
  {
    assert DigitChar(d) == "0123456789"[d];
  }

  /** Digits with single underscores between them. */
  predicate IsLiteral(s: string) {
    && s != "" && IsDigit(s[0]) && IsDigit(s[|s| - 1])
    && (forall i :: 0 <= i < |s| ==> IsDigit(s[i]) || s[i] == '_')
    && (forall i, j :: 0 <= i < |s| && j == i + 1 < |s| ==> IsDigit(s[i]) || IsDigit(s[j]))
  }

  /** Which unsigned texts int() reads. */
  lemma {:induction false} LiteralsOnly(s: string)
    ensures NatValue(s).Some? <==> IsLiteral(s)
    decreases |s|
  {
    if |s| > 1 && IsDigit(s[|s| - 1]) {
      var n := if s[|s| - 2] == '_' then |s| - 2 else |s| - 1;
      LiteralsOnly(s[..n]);
      LiteralFront(s, n);
    }
  }

  lemma LiteralFront(s: string, n: nat)
    requires |s| > 1 && IsDigit(s[|s| - 1]) && n == if s[|s| - 2] == '_' then |s| - 2 else |s| - 1
    ensures IsLiteral(s) <==> IsLiteral(s[..n])
  {
    var front := s[..n];
    assert forall i :: 0 <= i < n ==> front[i] == s[i];
    if IsLiteral(s) {
      assert n == |s| - 2 ==> n > 0 && IsDigit(s[n - 1]);
    }
    if IsLiteral(front) {
      assert IsDigit(front[n - 1]) && front[0] == s[0];
    }
  }

  /** Each further digit counts ten times what came before and itself; an underscore counts nothing. */
  lemma LiteralValue(s: string, d: nat)
    requires d < 10
    ensures NatValue(["0123456789"[d]]) == Some(d)
    ensures NatValue(s).Some? ==>
      NatValue(s + ["0123456789"[d]]) == NatValue(s + ['_', "0123456789"[d]]) == Some(10 * NatValue(s).value + d)
  {
    assert "0123456789"[d] == DigitChar(d);
    if NatValue(s).Some? {
      PlainDigit(s, d);
      SpacedDigit(s, d);
    }
  }

  lemma PlainDigit(s: string, d: nat)
    requires d < 10 && NatValue(s).Some?
    ensures NatValue(s + [DigitChar(d)]) == Some(10 * NatValue(s).value + d)
  {
    var t := s + [DigitChar(d)];
    assert t[..|t| - 1] == s && t[|t| - 2] == s[|s| - 1];
  }

  lemma SpacedDigit(s: string, d: nat)
    requires d < 10 && NatValue(s).Some?
    ensures NatValue(s + ['_', DigitChar(d)]) == Some(10 * NatValue(s).value + d)
  {
    var t := s + ['_', DigitChar(d)];
    assert t[..|t| - 2] == s && t[|t| - 2] == '_';
  }

  /** int() reads a literal with C blanks around it and at most one sign before it, and nothing else. */
  lemma SignedValue(p: string, t: string, q: string)
    requires AllBlank(p, IsCSpace) && AllBlank(q, IsCSpace)
    requires t != "" && !IsCSpace(t[0]) && !IsCSpace(t[|t| - 1])
    ensures IntValue(p + q) == None
    ensures t[0] == '-' ==> IntValue(p + t + q) == if IsLiteral(t[1..]) then Some(-Unsigned(t[1..])) else None
    ensures t[0] == '+' ==> IntValue(p + t + q) == if IsLiteral(t[1..]) then Some(Unsigned(t[1..])) else None
    ensures t[0] != '-' && t[0] != '+' ==>
      IntValue(p + t + q) == if IsLiteral(t) then Some(Unsigned(t)) else None
  {
    TrimPadding(p, t, q, IsCSpace);
    LTrimPadding(p + q, "", IsCSpace);
    assert (p + q) + "" == p + q;
    LiteralsOnly(t);
    LiteralsOnly(t[1..]);
    assert NatValue("") == None;
  }

  function Unsigned(s: string): int {
    if NatValue(s).Some? then NatValue(s).value else 0
  }

  lemma {:induction false} JoinAppend(a: seq<string>, b: seq<string>, sep: string)
    requires a != [] && b != []
    ensures Join(a + b, sep) == Join(a, sep) + sep + Join(b, sep)
  {
    if |a| == 1 {
      assert (a + b)[1..] == b;
    } else {
      assert (a + b)[1..] == a[1..] + b;
      JoinAppend(a[1..], b, sep);
    }
  }
}
