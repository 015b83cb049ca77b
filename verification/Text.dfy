/**
 The handful of string operations of the Rust standard library that the spec parsers
 use: `split_once`, `rsplit_once`, `split`, `trim` and decimal parsing.
 */
module Text {
  import opened Domain

  /** The index of the first `c` in `s`, or `|s|`. */
  function IndexOf(s: string, c: char): (i: nat)
    ensures i <= |s|
    ensures forall k :: 0 <= k < i ==> s[k] != c
    ensures i < |s| ==> s[i] == c
  {
    if s == [] || s[0] == c then 0 else 1 + IndexOf(s[1..], c)
  }

  /** The index of the last `c` in `s`, or `|s|` when there is none. */
  function LastIndexOf(s: string, c: char): (i: nat)
    ensures i <= |s|
    ensures i == |s| ==> forall k :: 0 <= k < |s| ==> s[k] != c
    ensures i < |s| ==> s[i] == c && forall k :: i < k < |s| ==> s[k] != c
  {
    if s == [] then 0
    else
      var rest := LastIndexOf(s[1..], c);
      if rest < |s| - 1 then 1 + rest else if s[0] == c then 0 else |s|
  }

  lemma IndexOfFirst(before: string, c: char, after: string)
    requires c !in before
    ensures IndexOf(before + [c] + after, c) == |before|
  {
    var s := before + [c] + after;
    assert s[|before|] == c;
    assert forall k :: 0 <= k < |before| ==> s[k] == before[k];
  }

  lemma {:induction false} LastIndexOfLast(before: string, c: char, after: string)
    requires c !in after
    ensures LastIndexOf(before + [c] + after, c) == |before|
  {
    var s := before + [c] + after;
    if before == [] {
      assert s[1..] == after;
    } else {
      LastIndexOfLast(before[1..], c, after);
      assert s[1..] == before[1..] + [c] + after;
    }
  }

  predicate IsDigit(c: char) { '0' <= c <= '9' }

  predicate AllDigits(s: string) { forall i :: 0 <= i < |s| ==> IsDigit(s[i]) }

  function DigitValue(c: char): (v: nat)
    requires IsDigit(c)
    ensures v < 10
  {
    c as int - '0' as int
  }

  /** The number that a string of digits denotes. */
  function NatValue(s: string): nat
    requires AllDigits(s)
  {
    if s == [] then 0 else NatValue(s[..|s| - 1]) * 10 + DigitValue(s[|s| - 1])
  }

  /** `str::parse::<u32>`: an optional plus sign, then digits that fit in 32 bits. */
  function ParseU32(s: string): Option<nat> {
    var digits := if s != [] && s[0] == '+' then s[1..] else s;
    if digits == [] || !AllDigits(digits) || NatValue(digits) > U32_MAX then None
    else Some(NatValue(digits))
  }

  /** `str::parse::<i64>`: an optional sign, then digits that fit in 64 bits. */
  function ParseI64(s: string): Option<int> {
    var negative := s != [] && s[0] == '-';
    var digits := if s != [] && (s[0] == '+' || s[0] == '-') then s[1..] else s;
    if digits == [] || !AllDigits(digits) then None
    else
      var value: int := if negative then -(NatValue(digits) as int) else NatValue(digits);
      if I64_MIN <= value <= I64_MAX then Some(value) else None
  }

  /** The decimal digits of `n`. */
  function Decimal(n: nat): (s: string)
    ensures s != [] && AllDigits(s)
    ensures NatValue(s) == n
  {
    if n < 10 then
      var s := [DigitChar(n)];
      assert s[..|s| - 1] == [];
      s
    else
      var front := Decimal(n / 10);
      var s := front + [DigitChar(n % 10)];
      assert s[..|s| - 1] == front;
      s
  }

  function DigitChar(d: nat): (c: char)
    requires d < 10
    ensures IsDigit(c) && DigitValue(c) == d
  {
    ('0' as int + d) as char
  }

  /** Code points with the Unicode White_Space property, which is what `trim` removes. */
  predicate IsWhitespace(c: char) {
    var p := c as int;
    || 0x9 <= p <= 0xD || p == 0x20 || p == 0x85 || p == 0xA0 || p == 0x1680
    || 0x2000 <= p <= 0x200A || p == 0x2028 || p == 0x2029 || p == 0x202F || p == 0x205F
    || p == 0x3000
  }

  function TrimStart(s: string): string {
    if s != [] && IsWhitespace(s[0]) then TrimStart(s[1..]) else s
  }

  function TrimEnd(s: string): string {
    if s != [] && IsWhitespace(s[|s| - 1]) then TrimEnd(s[..|s| - 1]) else s
  }

  function Trim(s: string): string { TrimEnd(TrimStart(s)) }

  predicate AllSpace(s: string) { forall i :: 0 <= i < |s| ==> IsWhitespace(s[i]) }

  /** Trimming takes the space off both ends and nothing else. */
  lemma {:induction false} TrimStrips(before: string, core: string, after: string)
    requires AllSpace(before) && AllSpace(after)
    requires core != "" && !IsWhitespace(core[0]) && !IsWhitespace(core[|core| - 1])
    ensures Trim(before + core + after) == core
  {
    TrimStartStrips(before, core + after);
    assert before + core + after == before + (core + after);
    TrimEndStrips(core, after);
  }

  lemma {:induction false} TrimStartStrips(before: string, rest: string)
    requires AllSpace(before) && rest != "" && !IsWhitespace(rest[0])
    ensures TrimStart(before + rest) == rest
  {
    hide IsWhitespace;
    if before == "" {
      assert before + rest == rest;
    } else {
      TrimStartStrips(before[1..], rest);
      assert (before + rest)[1..] == before[1..] + rest;
    }
  }

  lemma {:induction false} TrimEndStrips(core: string, after: string)
    requires AllSpace(after) && core != "" && !IsWhitespace(core[|core| - 1])
    ensures TrimEnd(core + after) == core
  {
    hide IsWhitespace;
    var all := core + after;
    if after == "" {
      assert all == core;
    } else {
      TrimEndStrips(core, after[..|after| - 1]);
      assert all[..|all| - 1] == core + after[..|after| - 1];
    }
  }

  /** The pieces with the separator put back between them. */
  function Join(pieces: seq<string>, separator: char): string
    requires pieces != []
  {
    if |pieces| == 1 then pieces[0] else pieces[0] + [separator] + Join(pieces[1..], separator)
  }

  /** `str::split`. */
  function Split(s: string, separator: char): (pieces: seq<string>)
    ensures pieces != []
    decreases |s|
  {
    var i := IndexOf(s, separator);
    if i == |s| then [s] else [s[..i]] + Split(s[i + 1..], separator)
  }

  /** The pieces are free of the separator and join up to the text again. */
  lemma {:induction false} SplitPieces(s: string, separator: char)
    ensures forall i :: 0 <= i < |Split(s, separator)| ==> separator !in Split(s, separator)[i]
    ensures Join(Split(s, separator), separator) == s
    decreases |s|
  {
    var i := IndexOf(s, separator);
    if i < |s| {
      SplitPieces(s[i + 1..], separator);
      assert Split(s, separator)[1..] == Split(s[i + 1..], separator);
      assert s == s[..i] + [separator] + s[i + 1..];
    }
  }

  /** `str::split_whitespace`: the maximal runs of non-space characters. */
  function Words(s: string): seq<string>
    decreases |s|
  {
    WordsFrom(s, [])
  }

  function WordsFrom(s: string, word: string): seq<string>
    decreases |s|
  {
    var done := if word == [] then [] else [word];
    if s == [] then done
    else if IsWhitespace(s[0]) then done + WordsFrom(s[1..], [])
    else WordsFrom(s[1..], word + [s[0]])
  }

  lemma {:induction false} WordGrows(word: string, s: string, begun: string)
    requires forall i :: 0 <= i < |word| ==> !IsWhitespace(word[i])
    ensures WordsFrom(word + s, begun) == WordsFrom(s, begun + word)
  {
    if word == [] {
      assert word + s == s && begun + word == begun;
    } else {
      WordGrows(word[1..], s, begun + [word[0]]);
      assert (word + s)[1..] == word[1..] + s;
      assert begun + [word[0]] + word[1..] == begun + word;
    }
  }

  lemma FirstWord(word: string, rest: string)
    requires word != "" && forall i :: 0 <= i < |word| ==> !IsWhitespace(word[i])
    ensures Words(word + " " + rest) == [word] + Words(rest)
  {
    WordGrows(word, " " + rest, []);
    assert word + " " + rest == word + (" " + rest) && [] + word == word;
    assert (" " + rest)[1..] == rest;
  }

  lemma LastWord(word: string)
    requires word != "" && forall i :: 0 <= i < |word| ==> !IsWhitespace(word[i])
    ensures Words(word) == [word]
  {
    WordGrows(word, "", []);
    assert word + "" == word && [] + word == word;
  }

  predicate HasPrefix(s: string, prefix: string) { prefix <= s }

  /** When two texts that begin differently are the same. */
  lemma PrefixesMeet(a: string, x: string, b: string, y: string)
    ensures a <= b ==> (a + x == b + y <==> x == b[|a|..] + y)
    ensures |a| <= |b| && a + x == b + y ==> a <= b
  {
    if a <= b {
      assert b + y == a + (b[|a|..] + y);
      if a + x == b + y {
        assert (a + x)[|a|..] == x && (b + y)[|a|..] == b[|a|..] + y;
      }
    }
    if |a| <= |b| && a + x == b + y {
      assert a == (a + x)[..|a|] == (b + y)[..|a|] == b[..|a|];
    }
  }
}
