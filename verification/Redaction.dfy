/**
 Secret redaction in the runner's output: every resolved secret is replaced by a marker,
 longest first, one pass per secret. A later pass works on the markers of earlier ones,
 so whether a secret can survive depends on how it can overlap the marker.
 */
module Redaction {
  import opened Text

  const MARKER := "[REDACTED]"

  ghost predicate OccursAt(x: string, t: string, i: int) { 0 <= i <= |t| - |x| && t[i..i + |x|] == x }

  ghost predicate Occurs(x: string, t: string) { exists i :: OccursAt(x, t, i) }

  lemma OccursAtAgrees(x: string, t: string, i: int)
    requires 0 <= i <= |t| - |x|
    ensures OccursAt(x, t, i) <==> forall k {:trigger x[k]} :: 0 <= k < |x| ==> t[i + k] == x[k]
  {
    var y := t[i..i + |x|];
    assert forall k :: 0 <= k < |x| ==> y[k] == t[i + k];
    if forall k {:trigger x[k]} :: 0 <= k < |x| ==> t[i + k] == x[k] {
      assert y == x;
    }
  }

  /** `str::replace` with the marker: leftmost matches first, none overlapping. */
  function Replace(t: string, x: string): string
    requires x != ""
    decreases |t|
  {
    if |t| < |x| then t
    else if x <= t then MARKER + Replace(t[|x|..], x)
    else [t[0]] + Replace(t[1..], x)
  }

  /** The number of bytes of a code point in UTF-8, the unit of `str::len`. */
  function Utf8Size(c: char): (n: nat)
    ensures 1 <= n <= 4
  {
    var p := c as int;
    if p < 0x80 then 1 else if p < 0x800 then 2 else if p < 0x1_0000 then 3 else 4
  }

  function ByteLength(s: string): nat {
    if s == "" then 0 else ByteLength(s[..|s| - 1]) + Utf8Size(s[|s| - 1])
  }

  /** The values that are looked for: trimmed, and the empty ones left out. */
  function SecretsOf(values: seq<string>): (secrets: seq<string>)
    ensures forall x :: x in secrets <==> x != "" && exists i :: 0 <= i < |values| && Trim(values[i]) == x
  {
    if values == [] then []
    else
      var rest, last := SecretsOf(values[..|values| - 1]), Trim(values[|values| - 1]);
      assert forall i :: 0 <= i < |values| - 1 ==> values[..|values| - 1][i] == values[i];
      if last == "" then rest else rest + [last]
  }

  ghost predicate LongestFirst(order: seq<string>) {
    forall i, j :: 0 <= i < j < |order| ==> ByteLength(order[i]) >= ByteLength(order[j])
  }

  /** Puts `x` behind everything that is at least as long. */
  function InsertByLength(order: seq<string>, x: string): (r: seq<string>)
    requires LongestFirst(order)
    ensures LongestFirst(r) && forall y :: y in r <==> y == x || y in order
    ensures forall k :: 0 <= k < |r| && (order == [] || ByteLength(order[0]) >= ByteLength(x)) ==>
      ByteLength(r[k]) <= if order == [] then ByteLength(x) else ByteLength(order[0])
  {
    if order == [] || ByteLength(order[0]) < ByteLength(x) then [x] + order
    else [order[0]] + InsertByLength(order[1..], x)
  }

  /** The stable sort by descending byte length. */
  function SortByLength(secrets: seq<string>): (r: seq<string>)
    ensures LongestFirst(r) && forall y :: y in r <==> y in secrets
  {
    if secrets == [] then []
    else
      var last := secrets[|secrets| - 1];
      assert secrets == secrets[..|secrets| - 1] + [last];
      InsertByLength(SortByLength(secrets[..|secrets| - 1]), last)
  }

  /** Sorting neither drops nor adds a secret. */
  lemma {:induction false} SortIsPermutation(secrets: seq<string>)
    ensures multiset(SortByLength(secrets)) == multiset(secrets)
    decreases |secrets|
  {
    if secrets != [] {
      var init, last := secrets[..|secrets| - 1], secrets[|secrets| - 1];
      assert secrets == init + [last];
      SortIsPermutation(init);
      InsertIsPermutation(SortByLength(init), last);
    }
  }

  lemma {:induction false} InsertIsPermutation(order: seq<string>, x: string)
    requires LongestFirst(order)
    ensures multiset(InsertByLength(order, x)) == multiset(order) + multiset{x}
    decreases |order|
  {
    if order != [] {
      assert order == [order[0]] + order[1..];
      InsertIsPermutation(order[1..], x);
    }
  }

  /** One pass per secret that was not seen before. */
  function Passes(text: string, order: seq<string>, seen: set<string>): string
    requires "" !in order
    decreases |order|
  {
    if order == [] then text
    else if order[0] in seen then Passes(text, order[1..], seen)
    else Passes(Replace(text, order[0]), order[1..], seen + {order[0]})
  }

  /** What the runner shows of a text, given the resolved values in whatever order. */
  function Redact(text: string, values: seq<string>): string {
    Passes(text, SortByLength(SecretsOf(values)), {})
  }

  /** `redact_secrets`. */
  method RedactSecrets(text: string, values: seq<string>) returns (redacted: string)
    ensures redacted == Redact(text, values)
  {
    redacted := text;
    var secretValues := SortByLength(SecretsOf(values));
    var seen: set<string> := {};
    for n := 0 to |secretValues|
      invariant "" !in secretValues
      invariant Redact(text, values) == Passes(redacted, secretValues[n..], seen)
    {
      var secret := secretValues[n];
      assert secretValues[n..][0] == secret && secretValues[n..][1..] == secretValues[n + 1..];
      if secret in seen {
        continue;
      }
      seen := seen + {secret};
      redacted := Replace(redacted, secret);
    }
  }

  // ----- Overlapping the marker -----

  /** Laid over the marker at offset `d`, the text agrees with it wherever both have a
      character. */
  ghost predicate Overlaps(x: string, d: int) {
    -|x| < d < |MARKER| && forall k :: 0 <= k < |MARKER| && d <= k < d + |x| ==> MARKER[k] == x[k - d]
  }

  /** No placement of the text shares a character with the marker. */
  ghost predicate MarkerFree(x: string) { forall d :: -|x| < d < |MARKER| ==> !Overlaps(x, d) }

  /** An occurrence that starts in verbatim text and does not overlap a marker is there
      before the pass as well. */
  lemma {:induction false} Verbatim(before: string, t: string, x: string, y: string)
    requires x != "" && MarkerFree(y) && |before| < |y|
    requires y <= before + Replace(t, x)
    ensures y <= before + t
    decreases |t|
  {
    if |t| >= |x| {
      var r := before + Replace(t, x);
      if x <= t {
        assert r == before + (MARKER + Replace(t[|x|..], x));
        EntersMarker(before, Replace(t[|x|..], x), y);
      } else {
        var next := before + [t[0]];
        assert r == next + Replace(t[1..], x);
        assert before + t == next + t[1..];
        if |next| < |y| {
          Verbatim(next, t[1..], x, y);
        } else {
          assert y == r[..|y|] == next;
        }
      }
    }
  }

  lemma EntersMarker(before: string, rest: string, y: string)
    requires |before| < |y| && y <= before + (MARKER + rest)
    ensures Overlaps(y, -|before|)
  {
    var r := before + (MARKER + rest);
    forall k | 0 <= k < |MARKER| && k < |y| - |before|
      ensures MARKER[k] == y[k + |before|]
    {
      assert r[k + |before|] == y[k + |before|];
    }
  }

  /** Where an occurrence behind a piece of text lies. */
  lemma OccursBehind(x: string, front: string, rest: string, i: int)
    requires OccursAt(x, front + rest, i) && |front| <= i
    ensures OccursAt(x, rest, i - |front|)
  {
    assert (front + rest)[i..i + |x|] == rest[i - |front|..i - |front| + |x|];
  }

  lemma OccursInMarker(x: string, rest: string, i: int)
    requires x != "" && OccursAt(x, MARKER + rest, i) && i < |MARKER|
    ensures Overlaps(x, i)
  {
    var t := MARKER + rest;
    forall k | 0 <= k < |MARKER| && i <= k < i + |x|
      ensures MARKER[k] == x[k - i]
    {
      assert t[i..i + |x|][k - i] == t[k];
    }
  }

  /** A pass for one secret brings no other secret back. */
  lemma {:induction false} PassKeepsAbsent(t: string, x: string, y: string)
    requires x != "" && y != "" && MarkerFree(y) && !Occurs(y, t)
    ensures !Occurs(y, Replace(t, x))
    decreases |t|
  {
    var r := Replace(t, x);
    if |t| >= |x| && Occurs(y, r) {
      var i :| OccursAt(y, r, i);
      if x <= t {
        if i < |MARKER| {
          OccursInMarker(y, Replace(t[|x|..], x), i);
        } else {
          OccursBehind(y, MARKER, Replace(t[|x|..], x), i);
          AbsentFromTail(y, t, |x|);
          PassKeepsAbsent(t[|x|..], x, y);
        }
      } else if i == 0 {
        Verbatim("", t, x, y);
        PrefixOccursFirst(y, t);
      } else {
        OccursBehind(y, [t[0]], Replace(t[1..], x), i);
        AbsentFromTail(y, t, 1);
        PassKeepsAbsent(t[1..], x, y);
      }
    }
  }

  lemma PrefixOccursFirst(x: string, t: string)
    requires x <= t
    ensures Occurs(x, t)
  {
    assert OccursAt(x, t, 0);
  }

  lemma AbsentFromTail(y: string, t: string, n: nat)
    requires n <= |t| && !Occurs(y, t)
    ensures !Occurs(y, t[n..])
  {
    if Occurs(y, t[n..]) {
      TailOccurs(y, t, n);
    }
  }

  lemma TailOccurs(y: string, t: string, n: nat)
    requires n <= |t| && Occurs(y, t[n..])
    ensures Occurs(y, t)
  {
    var i :| OccursAt(y, t[n..], i);
    assert t[n..][i..i + |y|] == t[i + n..i + n + |y|];
    assert OccursAt(y, t, i + n);
  }

  /** The pass for a secret that cannot overlap the marker removes every occurrence. */
  lemma {:induction false} PassRemoves(t: string, x: string)
    requires x != "" && MarkerFree(x)
    ensures !Occurs(x, Replace(t, x))
    decreases |t|
  {
    var r := Replace(t, x);
    if |t| >= |x| && Occurs(x, r) {
      var i :| OccursAt(x, r, i);
      if x <= t {
        if i < |MARKER| {
          OccursInMarker(x, Replace(t[|x|..], x), i);
        } else {
          OccursBehind(x, MARKER, Replace(t[|x|..], x), i);
          PassRemoves(t[|x|..], x);
        }
      } else if i == 0 {
        Verbatim("", t, x, x);
      } else {
        OccursBehind(x, [t[0]], Replace(t[1..], x), i);
        PassRemoves(t[1..], x);
      }
    }
  }

  // ----- Whole redactions -----

  lemma {:induction false} PassesKeepAbsent(text: string, order: seq<string>, seen: set<string>, y: string)
    requires "" !in order && y != "" && MarkerFree(y) && !Occurs(y, text)
    ensures !Occurs(y, Passes(text, order, seen))
    decreases |order|
  {
    if order != [] {
      if order[0] in seen {
        PassesKeepAbsent(text, order[1..], seen, y);
      } else {
        PassKeepsAbsent(text, order[0], y);
        PassesKeepAbsent(Replace(text, order[0]), order[1..], seen + {order[0]}, y);
      }
    }
  }

  lemma {:induction false} PassesRemove(text: string, order: seq<string>, seen: set<string>, y: string)
    requires "" !in order && y in order && y !in seen && MarkerFree(y)
    ensures !Occurs(y, Passes(text, order, seen))
    decreases |order|
  {
    assert order == [order[0]] + order[1..];
    if order[0] in seen {
      PassesRemove(text, order[1..], seen, y);
    } else if order[0] == y {
      PassRemoves(text, y);
      PassesKeepAbsent(Replace(text, y), order[1..], seen + {y}, y);
    } else {
      PassesRemove(Replace(text, order[0]), order[1..], seen + {order[0]}, y);
    }
  }

  /** A secret that cannot overlap the marker never shows, whatever the text and whatever
      the other secrets are: its pass removes it and no other pass brings it back. */
  lemma MarkerFreeSecretsAreHidden(text: string, values: seq<string>, i: nat)
    requires i < |values| && Trim(values[i]) != "" && MarkerFree(Trim(values[i]))
    ensures !Occurs(Trim(values[i]), Redact(text, values))
    ensures !Occurs(values[i], Redact(text, values))
  {
    var secret, out := Trim(values[i]), Redact(text, values);
    assert secret in SecretsOf(values);
    PassesRemove(text, SortByLength(SecretsOf(values)), {}, secret);
    if Occurs(values[i], out) {
      TrimOccurs(values[i]);
      OccursThrough(secret, values[i], out);
    }
  }

  lemma {:induction false} TrimOccurs(s: string)
    ensures Occurs(Trim(s), s)
  {
    hide OccursAt;
    var front := TrimStart(s);
    TrimStartIsTail(s);
    TrimEndIsHead(front);
    var n, m := |s| - |front|, |Trim(s)|;
    SliceOfSlice(s, n, |s|, 0, m);
    assert front == s[n..|s|] && Trim(s) == front[0..m];
    assert Trim(s) == s[n..n + m];
    SliceOccurs(s, n, n + m);
  }

  lemma SliceOfSlice(s: string, a: nat, b: nat, c: nat, d: nat)
    requires a <= b <= |s| && c <= d <= b - a
    ensures s[a..b][c..d] == s[a + c..a + d]
  {
    assert |s[a..b][c..d]| == |s[a + c..a + d]|;
    forall k | 0 <= k < d - c
      ensures s[a..b][c..d][k] == s[a + c..a + d][k]
    {}
  }

  lemma SliceOccurs(s: string, a: nat, b: nat)
    requires a <= b <= |s|
    ensures Occurs(s[a..b], s)
  {
    assert OccursAt(s[a..b], s, a);
  }

  lemma {:induction false} TrimStartIsTail(s: string)
    ensures |TrimStart(s)| <= |s| && TrimStart(s) == s[|s| - |TrimStart(s)|..]
    decreases |s|
  {
    if s != [] && IsWhitespace(s[0]) { TrimStartIsTail(s[1..]); }
  }

  lemma {:induction false} TrimEndIsHead(s: string)
    ensures |TrimEnd(s)| <= |s| && TrimEnd(s) == s[..|TrimEnd(s)|]
    decreases |s|
  {
    if s != [] && IsWhitespace(s[|s| - 1]) { TrimEndIsHead(s[..|s| - 1]); }
  }

  lemma OccursThrough(x: string, y: string, t: string)
    requires Occurs(x, y) && Occurs(y, t)
    ensures Occurs(x, t)
  {
    var i :| OccursAt(x, y, i);
    var j :| OccursAt(y, t, j);
    OccursAtAgrees(x, y, i);
    OccursAtAgrees(y, t, j);
    forall k {:trigger x[k]} | 0 <= k < |x|
      ensures t[i + j + k] == x[k]
    {
      assert y[i + k] == x[k];
    }
    OccursAtAgrees(x, t, i + j);
  }

  // ----- Exactly when redaction hides every secret -----

  predicate BracketFree(x: string) { '[' !in x && ']' !in x }

  lemma CoversBracket(x: string, d: int, k: nat)
    requires Overlaps(x, d) && k < |MARKER| && d <= k < d + |x|
    ensures MARKER[k] in x
  {
    assert MARKER[k] == x[k - d];
  }

  /** Without brackets, the only way to overlap the marker is to lie inside its word. */
  lemma BracketFreeOverlap(x: string)
    requires x != "" && BracketFree(x)
    ensures MarkerFree(x) <==> !Occurs(x, "REDACTED")
  {
    var word := "REDACTED";
    assert MARKER == "[" + word + "]";
    if !MarkerFree(x) {
      var d :| -|x| < d < |MARKER| && Overlaps(x, d);
      if d <= 0 { CoversBracket(x, d, 0); }
      if 9 < d + |x| { CoversBracket(x, d, 9); }
      assert 1 <= d && d + |x| <= 9;
      forall k {:trigger x[k]} | 0 <= k < |x|
        ensures word[d - 1 + k] == x[k]
      {
        assert MARKER[d + k] == x[d + k - d];
      }
      OccursAtAgrees(x, word, d - 1);
    }
    if Occurs(x, word) {
      var i :| OccursAt(x, word, i);
      assert Overlaps(x, i + 1) by {
        forall k | 0 <= k < |MARKER| && i + 1 <= k < i + 1 + |x|
          ensures MARKER[k] == x[k - (i + 1)]
        {
          assert word[i..i + |x|][k - (i + 1)] == word[k - 1];
        }
      }
    }
  }

  /** No secret shows in the redaction of any text. */
  ghost predicate AlwaysHides(values: seq<string>) {
    forall text, x :: x in SecretsOf(values) ==> !Occurs(x, Redact(text, values))
  }

  /** For secrets without brackets redaction hides every secret in every text exactly
      when no secret lies inside the word of the marker. */
  lemma BracketFreeExactly(values: seq<string>)
    requires forall x :: x in SecretsOf(values) ==> BracketFree(x)
    ensures AlwaysHides(values) <==> forall x :: x in SecretsOf(values) ==> !Occurs(x, "REDACTED")
  {
    if x :| x in SecretsOf(values) && Occurs(x, "REDACTED") {
      InMarkerLeaks(values, x);
    } else {
      forall text, x | x in SecretsOf(values)
        ensures !Occurs(x, Redact(text, values))
      {
        BracketFreeOverlap(x);
        PassesRemove(text, SortByLength(SecretsOf(values)), {}, x);
      }
    }
  }

  /** A secret inside the marker makes some text leak: take the last such secret in the
      order of the passes as the text; it becomes the marker, and the marker stays. */
  lemma InMarkerLeaks(values: seq<string>, x: string)
    requires x in SecretsOf(values) && Occurs(x, "REDACTED")
    ensures !AlwaysHides(values)
  {
    WordInMarker(x);
    var secret := LeakingText(SortByLength(SecretsOf(values)), {}, x);
    assert Redact(secret, values) == MARKER;
  }

  lemma {:induction false} LeakingText(order: seq<string>, seen: set<string>, x: string) returns (secret: string)
    requires "" !in order && LongestFirst(order) && x in order && x !in seen && Occurs(x, MARKER)
    ensures secret in order && secret !in seen && Occurs(secret, MARKER)
    ensures Passes(secret, order, seen) == MARKER
    decreases |order|
  {
    var first, rest := order[0], order[1..];
    assert order == [first] + rest;
    if first in seen {
      secret := LeakingText(rest, seen, x);
    } else if y :| y in rest && y !in seen + {first} && Occurs(y, MARKER) {
      secret := LeakingText(rest, seen + {first}, y);
      LongerIsAbsent(first, secret);
      AbsentUnchanged(secret, first);
    } else {
      secret := first;
      assert secret[|secret|..] == "";
      assert Replace(secret, first) == MARKER;
      AbsentPassesUnchanged(MARKER, rest, seen + {first});
    }
  }

  lemma LongerIsAbsent(x: string, t: string)
    requires x != t && ByteLength(x) >= ByteLength(t)
    ensures !Occurs(x, t)
  {
    if i :| OccursAt(x, t, i) {
      assert t == t[..i] + x + t[i + |x|..];
      ByteLengthOfTwo(t[..i] + x, t[i + |x|..]);
      ByteLengthOfTwo(t[..i], x);
      ByteLengthOfTwo("", t[..i]);
    }
  }

  lemma {:induction false} ByteLengthOfTwo(x: string, y: string)
    ensures ByteLength(x + y) == ByteLength(x) + ByteLength(y)
    ensures y != "" ==> ByteLength(y) > 0
    decreases |y|
  {
    if y == "" {
      assert x + y == x;
    } else {
      assert (x + y)[..|x + y| - 1] == x + y[..|y| - 1];
      ByteLengthOfTwo(x, y[..|y| - 1]);
    }
  }

  lemma {:induction false} AbsentUnchanged(t: string, x: string)
    requires x != "" && !Occurs(x, t)
    ensures Replace(t, x) == t
    decreases |t|
  {
    if |t| >= |x| {
      if x <= t {
        PrefixOccursFirst(x, t);
      } else {
        AbsentFromTail(x, t, 1);
        AbsentUnchanged(t[1..], x);
      }
    }
  }

  lemma {:induction false} AbsentPassesUnchanged(t: string, order: seq<string>, seen: set<string>)
    requires "" !in order && forall y :: y in order && y !in seen ==> !Occurs(y, t)
    ensures Passes(t, order, seen) == t
    decreases |order|
  {
    if order != [] {
      if order[0] in seen {
        AbsentPassesUnchanged(t, order[1..], seen);
      } else {
        AbsentUnchanged(t, order[0]);
        AbsentPassesUnchanged(t, order[1..], seen + {order[0]});
      }
    }
  }

  /** A text in which no secret occurs is shown as it is. */
  lemma NothingToHide(text: string, values: seq<string>)
    requires forall x :: x in SecretsOf(values) ==> !Occurs(x, text)
    ensures Redact(text, values) == text
  {
    AbsentPassesUnchanged(text, SortByLength(SecretsOf(values)), {});
  }

  lemma WordInMarker(x: string)
    requires Occurs(x, "REDACTED")
    ensures Occurs(x, MARKER)
  {
    assert OccursAt("REDACTED", MARKER, 1);
    OccursThrough(x, "REDACTED", MARKER);
  }

  /** Longest first: a text that is a secret becomes the bare marker, even when another
      secret lies inside it, so nothing around the shorter one is left over. */
  lemma WholeSecretIsHidden(values: seq<string>, x: string)
    requires x in SecretsOf(values) && forall y :: y in SecretsOf(values) ==> !Occurs(y, MARKER)
    ensures Redact(x, values) == MARKER
  {
    WholeSecretPasses(SortByLength(SecretsOf(values)), {}, x);
  }

  lemma {:induction false} WholeSecretPasses(order: seq<string>, seen: set<string>, x: string)
    requires "" !in order && LongestFirst(order) && x in order && x !in seen
    requires forall y :: y in order ==> !Occurs(y, MARKER)
    ensures Passes(x, order, seen) == MARKER
    decreases |order|
  {
    var first, rest := order[0], order[1..];
    assert order == [first] + rest;
    if first in seen {
      WholeSecretPasses(rest, seen, x);
    } else if first == x {
      assert x[|x|..] == "";
      assert Replace(x, x) == MARKER;
      AbsentPassesUnchanged(MARKER, rest, seen + {x});
    } else {
      LongerIsAbsent(first, x);
      AbsentUnchanged(x, first);
      WholeSecretPasses(rest, seen + {first}, x);
    }
  }

  // ----- One secret: exactly when it can leak -----

  /** What of the secret lies in front of the marker at offset `d`. */
  function Lead(x: string, d: int): string
    requires -|x| < d
  {
    if d < 0 then x[..-d] else ""
  }

  /** The secret can stick out of the marker at offset `d`: the overlap agrees, and the
      part in front followed by the secret is first matched at the secret itself. */
  ghost predicate LeaksAt(x: string, d: int) {
    && -|x| < d < |MARKER| && Overlaps(x, d)
    && forall i :: 0 <= i < |Lead(x, d)| ==> !OccursAt(x, Lead(x, d) + x, i)
  }

  ghost predicate CanLeak(x: string) { exists d :: LeaksAt(x, d) }

  /** The pass for a secret leaves an occurrence of it in some text exactly when the
      secret can stick out of the marker without being matched on the way. */
  lemma OneSecretExactly(x: string)
    requires x != ""
    ensures (exists t :: Occurs(x, Replace(t, x))) <==> CanLeak(x)
  {
    if d :| LeaksAt(x, d) {
      var t := LeakFrom(x, d);
      assert Occurs(x, Replace(t, x));
    }
    if t :| Occurs(x, Replace(t, x)) {
      assert "" + Replace(t, x) == Replace(t, x);
      var d := LeakIn("", t, x);
    }
  }

  /** With one value redaction hides it in every text exactly when it cannot leak. */
  lemma OneValueExactly(value: string)
    requires Trim(value) != ""
    ensures AlwaysHides([value]) <==> !CanLeak(Trim(value))
  {
    var x := Trim(value);
    OnePass("", value);
    OneSecretExactly(x);
    if t :| Occurs(x, Replace(t, x)) {
      OnePass(t, value);
      assert x in SecretsOf([value]) && Occurs(x, Redact(t, [value]));
    } else {
      forall text, y | y in SecretsOf([value])
        ensures !Occurs(y, Redact(text, [value]))
      {
        OnePass(text, value);
        assert !Occurs(x, Replace(text, x));
      }
    }
  }

  lemma OnePass(text: string, value: string)
    requires Trim(value) != ""
    ensures SecretsOf([value]) == [Trim(value)] && Redact(text, [value]) == Replace(text, Trim(value))
  {
    var x := Trim(value);
    assert [value][..0] == [] && SecretsOf([]) == [];
    assert SecretsOf([value]) == [] + [x] == [x];
    assert [x][..0] == [] && SortByLength([]) == [];
    assert SortByLength([x]) == InsertByLength([], x) == [x];
    assert Passes(text, [x], {}) == Passes(Replace(text, x), [x][1..], {x});
  }

  /** Text in front of the first match is copied. */
  lemma {:induction false} ReplaceSkips(front: string, x: string, rest: string)
    requires x != "" && forall i :: 0 <= i < |front| ==> !OccursAt(x, front + x, i)
    ensures Replace(front + (x + rest), x) == front + (MARKER + Replace(rest, x))
    decreases |front|
  {
    if front == "" {
      assert front + (x + rest) == x + rest;
      assert (x + rest)[|x|..] == rest;
    } else {
      var t, tail := front + (x + rest), front[1..];
      assert t[..|x|] == (front + x)[0..0 + |x|];
      assert !OccursAt(x, front + x, 0);
      assert t[1..] == tail + (x + rest);
      assert tail + x == (front + x)[1..];
      forall i | 0 <= i < |tail|
        ensures !OccursAt(x, tail + x, i)
      {
        assert !OccursAt(x, front + x, i + 1);
        if OccursAt(x, tail + x, i) { OneFurther(x, front + x, i); }
      }
      ReplaceSkips(tail, x, rest);
      assert [t[0]] + (tail + (MARKER + Replace(rest, x))) == front + (MARKER + Replace(rest, x));
    }
  }

  lemma OneFurther(x: string, t: string, i: nat)
    requires t != "" && OccursAt(x, t[1..], i)
    ensures OccursAt(x, t, i + 1)
  {
    assert t[1..][i..i + |x|] == t[i + 1..i + 1 + |x|];
  }

  lemma LeakFrom(x: string, d: int) returns (t: string)
    requires x != "" && LeaksAt(x, d)
    ensures Occurs(x, Replace(t, x))
  {
    var lead := Lead(x, d);
    var rest := if d + |x| > |MARKER| then x[|MARKER| - d..] else "";
    t := lead + (x + rest);
    ReplaceSkips(lead, x, rest);
    RestIsCopied(x, rest);
    SticksOut(x, d, rest);
  }

  lemma RestIsCopied(x: string, rest: string)
    requires x != "" && |rest| < |x|
    ensures Replace(rest, x) == rest
  {}

  lemma SticksOut(x: string, d: int, rest: string)
    requires x != "" && Overlaps(x, d) && rest == if d + |x| > |MARKER| then x[|MARKER| - d..] else ""
    ensures Occurs(x, Lead(x, d) + (MARKER + rest))
  {
    var lead := Lead(x, d);
    var r, at := lead + (MARKER + rest), if d < 0 then 0 else d;
    forall k {:trigger x[k]} | 0 <= k < |x|
      ensures at + k < |r| && r[at + k] == x[k]
    {
      var m := at + k - |lead|;
      assert m == d + k;
      if 0 <= m < |MARKER| {
        assert MARKER[m] == x[m - d];
      } else if m >= |MARKER| {
        assert rest[m - |MARKER|] == x[k];
      }
    }
    assert r[at + (|x| - 1)] == x[|x| - 1];
    OccursAtAgrees(x, r, at);
  }

  /** An occurrence in the output sticks out of some marker. */
  lemma {:induction false} LeakIn(front: string, t: string, x: string) returns (d: int)
    requires x != "" && Occurs(x, front + Replace(t, x))
    requires forall i :: 0 <= i < |front| ==> !OccursAt(x, front + t, i)
    ensures LeaksAt(x, d)
    decreases |t|
  {
    hide OccursAt, Overlaps, LeaksAt;
    var i :| OccursAt(x, front + Replace(t, x), i);
    if |t| < |x| {
      ShortTailIsClean(front, t, x, i);
    } else if x <= t {
      var rest := Replace(t[|x|..], x);
      if i < |front| + |MARKER| {
        d := i - |front|;
        LeaksHere(front, t, x, rest, i);
      } else {
        OccursBehind(x, front, MARKER + rest, i);
        OccursBehind(x, MARKER, rest, i - |front|);
        assert "" + rest == rest;
        d := LeakIn("", t[|x|..], x);
      }
    } else {
      var next := front + [t[0]];
      assert front + t == next + t[1..];
      assert front + Replace(t, x) == next + Replace(t[1..], x);
      NoMatchHere(front, t, x);
      d := LeakIn(next, t[1..], x);
    }
  }

  /** An occurrence ends inside the text, so a tail shorter than it holds no start of one. */
  lemma ShortTailIsClean(front: string, t: string, x: string, i: int)
    requires |t| < |x| && forall j :: 0 <= j < |front| ==> !OccursAt(x, front + t, j)
    ensures !OccursAt(x, front + t, i)
  {}

  lemma NoMatchHere(front: string, t: string, x: string)
    requires |x| <= |t| && !(x <= t)
    ensures !OccursAt(x, front + t, |front|)
  {
    assert (front + t)[|front|..|front| + |x|] == t[..|x|];
  }

  lemma LeaksHere(front: string, t: string, x: string, rest: string, i: int)
    requires x != "" && x <= t && i < |front| + |MARKER| && OccursAt(x, front + (MARKER + rest), i)
    requires forall j :: 0 <= j < |front| ==> !OccursAt(x, front + t, j)
    ensures LeaksAt(x, i - |front|)
  {
    if i < |front| {
      LeadLeaks(front, t, x, rest, i);
    } else {
      OccursBehind(x, front, MARKER + rest, i);
      OccursInMarker(x, rest, i - |front|);
    }
  }

  lemma PrefixOccurs(front: string, x: string, s: string, t: string, i: int)
    requires OccursAt(x, front + s, i) && i + |x| <= |front|
    ensures OccursAt(x, front + t, i)
  {
    assert (front + t)[i..i + |x|] == (front + s)[i..i + |x|];
  }

  lemma LeadLeaks(front: string, t: string, x: string, rest: string, i: int)
    requires x != "" && x <= t && 0 <= i < |front| && OccursAt(x, front + (MARKER + rest), i)
    requires forall j :: 0 <= j < |front| ==> !OccursAt(x, front + t, j)
    ensures LeaksAt(x, i - |front|)
  {
    var out, d := front + (MARKER + rest), i - |front|;
    OccursAtAgrees(x, out, i);
    assert !OccursAt(x, front + t, i);
    if i + |x| <= |front| {
      PrefixOccurs(front, x, MARKER + rest, t, i);
    } else {
      forall k | 0 <= k < |MARKER| && d <= k < d + |x|
        ensures MARKER[k] == x[k - d]
      {
        assert out[i + (k - d)] == x[k - d];
      }
      LeadIsTail(front, x, MARKER + rest, i);
      LeadIsUnmatched(front, t, x, i);
    }
  }

  /** What of the occurrence lies in front of the marker. */
  lemma LeadIsTail(front: string, x: string, rest: string, i: int)
    requires 0 <= i < |front| < i + |x| && OccursAt(x, front + rest, i)
    ensures Lead(x, i - |front|) == front[i..]
  {
    var n := |front| - i;
    SliceOfSlice(front + rest, i, i + |x|, 0, n);
    assert (front + rest)[i..|front|] == front[i..];
  }

  lemma LeadIsUnmatched(front: string, t: string, x: string, i: int)
    requires x <= t && 0 <= i < |front|
    requires forall j :: 0 <= j < |front| ==> !OccursAt(x, front + t, j)
    ensures forall j :: 0 <= j < |front| - i ==> !OccursAt(x, front[i..] + x, j)
  {
    forall j | 0 <= j < |front| - i
      ensures !OccursAt(x, front[i..] + x, j)
    {
      if OccursAt(x, front[i..] + x, j) {
        OccursFurther(front, t, x, i, j);
      }
    }
  }

  lemma OccursFurther(front: string, t: string, x: string, i: nat, j: nat)
    requires x <= t && i < |front| && j < |front| - i && OccursAt(x, front[i..] + x, j)
    ensures OccursAt(x, front + t, i + j)
  {
    assert front[i..] + x == (front + t)[i..|front| + |x|];
    SliceOfSlice(front + t, i, |front| + |x|, j, j + |x|);
  }

  /** A secret that starts like the end of the marker: "]x" followed by another 'x'. */
  lemma BracketsCanLeak()
    ensures CanLeak("]x") && !AlwaysHides(["]x"])
  {
    var x := "]x";
    assert Overlaps(x, 9);
    assert LeaksAt(x, 9);
    assert Trim(x) == x by {
      assert TrimStart(x) == x && TrimEnd(x) == x;
    }
    OneValueExactly(x);
  }
}
