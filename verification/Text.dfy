/** Text as the repository compares and validates it.

A `char` is one Unicode scalar value, so a `string` is always valid UTF-8 and the
code-point order below is Go's byte order on the encoded text. */
module Text {

  /** cmp.Compare on integers. */
  function CompareInt(a: int, b: int): int {
    if a < b then -1 else if a == b then 0 else 1
  }

  /** cmp.Compare on strings. */
  function Compare(a: string, b: string): int {
    if a == [] then (if b == [] then 0 else -1)
    else if b == [] then 1
    else if a[0] != b[0] then (if a[0] < b[0] then -1 else 1)
    else Compare(a[1..], b[1..])
  }

  lemma {:induction false} CompareZero(a: string, b: string)
    ensures Compare(a, b) == 0 <==> a == b
  {
    if a != [] && b != [] {
      assert a == [a[0]] + a[1..] && b == [b[0]] + b[1..];
      if a[0] == b[0] {
        CompareZero(a[1..], b[1..]);
      }
    }
  }

  lemma {:induction false} CompareFlip(a: string, b: string)
    ensures Compare(a, b) == -Compare(b, a)
  {
    if a != [] && b != [] && a[0] == b[0] {
      CompareFlip(a[1..], b[1..]);
    }
  }

  lemma {:induction false} CompareTransitive(a: string, b: string, c: string)
    requires Compare(a, b) <= 0 && Compare(b, c) <= 0
    ensures Compare(a, c) <= 0
  {
    if a != [] && b != [] && c != [] && a[0] == b[0] == c[0] {
      CompareTransitive(a[1..], b[1..], c[1..]);
    }
  }

  /** Transitivity, and that a tie across a chain is a tie at every link. */
  lemma CompareChain(a: string, b: string, c: string)
    ensures Compare(a, b) <= 0 && Compare(b, c) <= 0 ==> Compare(a, c) <= 0
    ensures Compare(a, b) <= 0 && Compare(b, c) <= 0 && Compare(a, c) == 0 ==> Compare(a, b) == 0 && Compare(b, c) == 0
  {
    if Compare(a, b) <= 0 && Compare(b, c) <= 0 {
      CompareTransitive(a, b, c);
      if Compare(a, c) == 0 {
        CompareZero(a, c);
        CompareFlip(a, b);
      }
    }
  }

  /** The string order is total and its ties are equal strings. */
  lemma CompareTotal()
    ensures forall a: string, b: string :: Compare(a, b) == -Compare(b, a)
    ensures forall a: string, b: string :: Compare(a, b) == 0 <==> a == b
    ensures forall a: string, b: string, c: string :: Compare(a, b) <= 0 && Compare(b, c) <= 0 ==> Compare(a, c) <= 0
  {
    forall a: string, b: string ensures Compare(a, b) == -Compare(b, a) && (Compare(a, b) == 0 <==> a == b) {
      CompareFlip(a, b);
      CompareZero(a, b);
    }
    forall a: string, b: string, c: string | Compare(a, b) <= 0 && Compare(b, c) <= 0
      ensures Compare(a, c) <= 0
    {
      CompareTransitive(a, b, c);
    }
  }

  /** a comes first: at the first place where they differ its character is the smaller,
  or it ends there and b does not. */
  ghost predicate TextBefore(a: string, b: string) {
    exists n :: DecidesAt(a, b, n)
  }

  ghost predicate DecidesAt(a: string, b: string, n: int) {
    0 <= n <= |a| && n < |b| && a[..n] == b[..n] && (n == |a| || a[n] < b[n])
  }

  /** The comparison decides exactly that order. */
  lemma {:induction false} CompareIsTextOrder(a: string, b: string)
    ensures Compare(a, b) < 0 <==> TextBefore(a, b)
    ensures Compare(a, b) == 0 <==> a == b
  {
    CompareZero(a, b);
    if a == [] && b != [] {
      assert DecidesAt(a, b, 0);
    } else if a != [] && b != [] && a[0] != b[0] {
      assert DecidesAt(a, b, 0) <==> a[0] < b[0];
      forall n | 0 < n <= |a| && n < |b| ensures a[..n] != b[..n] {
        assert a[..n][0] != b[..n][0];
      }
    } else if a != [] && b != [] {
      CompareIsTextOrder(a[1..], b[1..]);
      if n :| DecidesAt(a[1..], b[1..], n) {
        assert a[..n + 1] == [a[0]] + a[1..][..n] && b[..n + 1] == [b[0]] + b[1..][..n];
        assert DecidesAt(a, b, n + 1);
      }
      if n :| DecidesAt(a, b, n) {
        assert n > 0 && a[1..][..n - 1] == a[..n][1..] && b[1..][..n - 1] == b[..n][1..];
        assert DecidesAt(a[1..], b[1..], n - 1);
      }
    }
  }

  const NUL: char := '\0'

  /** unicode.IsControl: the Cc category. */
  predicate IsControl(c: char) {
    c as int < 0x20 || 0x7F <= c as int < 0xA0
  }

  /** unicode.IsSpace: the White_Space property. */
  predicate IsSpace(c: char) {
    var n := c as int;
    || 0x09 <= n <= 0x0D || n == 0x20 || n == 0x85 || n == 0xA0 || n == 0x1680
    || 0x2000 <= n <= 0x200A || n == 0x2028 || n == 0x2029 || n == 0x202F || n == 0x205F || n == 0x3000
  }

  /** The two blocks of control characters and DEL. */
  lemma ControlCharacters(c: char)
    ensures IsControl(c) <==> c as int == 0x7F || (c as int / 0x80 < 2 && c as int % 0x80 < 0x20)
  {
  }

  /** The characters Unicode calls white space, one by one. */
  const WHITE_SPACE: set<int> := {
    0x09, 0x0A, 0x0B, 0x0C, 0x0D, 0x20, 0x85, 0xA0, 0x1680, 0x2000, 0x2001, 0x2002, 0x2003, 0x2004, 0x2005, 0x2006,
    0x2007, 0x2008, 0x2009, 0x200A, 0x2028, 0x2029, 0x202F, 0x205F, 0x3000}

  lemma SpaceCharacters(c: char)
    ensures IsSpace(c) <==> c as int in WHITE_SPACE
  {
  }

  ghost function TrimLeft(s: string): string {
    if s != [] && IsSpace(s[0]) then TrimLeft(s[1..]) else s
  }

  ghost function TrimSpace(s: string): string {
    if s != [] && IsSpace(s[|s| - 1]) then TrimSpace(s[..|s| - 1]) else TrimLeft(s)
  }

  lemma {:induction false} TrimLeftShrinks(s: string)
    ensures |TrimLeft(s)| <= |s|
    ensures TrimLeft(s) == s <==> s == [] || !IsSpace(s[0])
  {
    hide IsSpace;
    if s != [] && IsSpace(s[0]) {
      TrimLeftShrinks(s[1..]);
    }
  }

  lemma {:induction false} TrimShrinks(s: string)
    ensures |TrimSpace(s)| <= |s|
  {
    hide IsSpace;
    if s != [] && IsSpace(s[|s| - 1]) {
      TrimShrinks(s[..|s| - 1]);
    } else {
      TrimLeftShrinks(s);
    }
  }

  /** Text is trimmed exactly when trimming it changes nothing. */
  lemma TrimmedMeans(s: string)
    ensures Trimmed(s) <==> TrimSpace(s) == s
  {
    hide IsSpace;
    TrimLeftShrinks(s);
    if s != [] && IsSpace(s[|s| - 1]) {
      TrimShrinks(s[..|s| - 1]);
    }
  }

  /** strings.TrimSpace(s) == s. */
  predicate Trimmed(s: string) {
    s == [] || (!IsSpace(s[0]) && !IsSpace(s[|s| - 1]))
  }

  predicate NoControl(s: string) {
    forall c :: c in s ==> !IsControl(c)
  }

  /** validateIdentifier: one line of trimmed, control-free, non-empty text. */
  predicate ValidIdentifier(s: string) {
    s != [] && Trimmed(s) && NoControl(s)
  }

  /** validateProse: as an identifier, but newlines are allowed inside. */
  predicate ValidProse(s: string) {
    s != [] && Trimmed(s) && forall c :: c in s ==> c == '\n' || !IsControl(c)
  }

  /** An identifier is one line of prose, lines of prose are prose, and no other control
  character is. */
  lemma ProseIsLines(s: string, t: string)
    ensures ValidIdentifier(s) <==> ValidProse(s) && '\n' !in s
    ensures ValidProse(s) && ValidProse(t) ==> ValidProse(s + "\n" + t)
    ensures ValidProse(s + "\n" + t) ==> forall c :: c in s + t && c != '\n' ==> !IsControl(c)
  {
    hide IsSpace;
    assert IsControl('\n');
    var u := s + "\n" + t;
    assert forall c :: c in u <==> c in s || c in t || c == '\n';
    assert s != [] && t != [] ==> u[0] == s[0] && u[|u| - 1] == t[|t| - 1];
  }

  predicate NulFree(s: string) {
    NUL !in s
  }

  lemma IdentifierIsNulFree(s: string)
    requires NoControl(s)
    ensures NulFree(s)
  {
    assert IsControl(NUL);
  }

  /** Every part followed by one NUL. */
  function NulTerminated(parts: seq<string>): string {
    if parts == [] then [] else parts[0] + [NUL] + NulTerminated(parts[1..])
  }

  /** NUL termination is injective on NUL-free parts, whatever their number. */
  lemma {:induction false} NulTerminatedInjective(a: seq<string>, b: seq<string>)
    requires forall p :: p in a || p in b ==> NulFree(p)
    requires NulTerminated(a) == NulTerminated(b)
    ensures a == b
  {
    if a == [] || b == [] {
      assert a == b;
    } else {
      FirstPartAgrees(a[0], NulTerminated(a[1..]), b[0], NulTerminated(b[1..]));
      NulTerminatedInjective(a[1..], b[1..]);
      assert a == [a[0]] + a[1..] && b == [b[0]] + b[1..];
    }
  }

  /** A NUL-free head is determined by the text up to the first NUL. */
  lemma FirstPartAgrees(x: string, xs: string, y: string, ys: string)
    requires NulFree(x) && NulFree(y)
    requires x + [NUL] + xs == y + [NUL] + ys
    ensures x == y && xs == ys
  {
    var s, t := x + [NUL] + xs, y + [NUL] + ys;
    assert s[|x|] == NUL && t[|y|] == NUL;
    assert forall i :: 0 <= i < |x| ==> s[i] == x[i];
    assert forall i :: 0 <= i < |y| ==> t[i] == y[i];
    assert |x| == |y|;
    assert x == s[..|x|] && y == t[..|y|];
    assert xs == s[|x| + 1..] && ys == t[|y| + 1..];
  }

  /** strings.Join. */
  function JoinedBy(parts: seq<string>, separator: char): string {
    if parts == [] then []
    else if |parts| == 1 then parts[0]
    else parts[0] + [separator] + JoinedBy(parts[1..], separator)
  }

  function NulJoined(parts: seq<string>): string {
    JoinedBy(parts, NUL)
  }

  // ---- text made of words ----

  /** No separator at either end, and no two in a row. */
  predicate Separated(s: string, separator: char) {
    && s != [] && s[0] != separator && s[|s| - 1] != separator
    && (forall i :: 0 <= i < |s| - 1 ==> s[i] != separator || s[i + 1] != separator)
  }

  ghost predicate AreWords(words: seq<string>, separator: char) {
    words != [] && forall w :: w in words ==> w != [] && separator !in w
  }

  lemma {:induction false} SplitWords(s: string, separator: char) returns (words: seq<string>)
    requires Separated(s, separator)
    ensures AreWords(words, separator) && JoinedBy(words, separator) == s
    decreases |s|
  {
    if separator !in s {
      words := [s];
    } else {
      var i := FirstPlaceOf(s, separator);
      var rest := SplitWords(s[i + 1..], separator);
      words := [s[..i]] + rest;
      assert words[1..] == rest;
    }
  }

  lemma {:induction false} FirstPlaceOf(s: string, c: char) returns (i: nat)
    requires c in s
    ensures i < |s| && s[i] == c && c !in s[..i]
  {
    if s[0] == c {
      i := 0;
    } else {
      i := FirstPlaceOf(s[1..], c);
      i := i + 1;
    }
  }

  lemma SeparatedJoin(a: string, separator: char, b: string)
    requires a != [] && separator !in a && Separated(b, separator)
    ensures Separated(a + [separator] + b, separator)
  {
    var s := a + [separator] + b;
    assert a[0] in a && a[|a| - 1] in a;
    forall i | 0 <= i < |s| - 1 ensures s[i] != separator || s[i + 1] != separator {
      if i < |a| {
        assert s[i] == a[i] && a[i] in a;
      } else if i > |a| {
        assert s[i] == b[i - |a| - 1] && s[i + 1] == b[i - |a|];
      }
    }
  }

  lemma {:induction false} WordsAreSeparated(words: seq<string>, separator: char)
    requires AreWords(words, separator)
    ensures Separated(JoinedBy(words, separator), separator)
    ensures JoinedBy(words, separator)[0] == words[0][0]
  {
    hide Separated;
    assert words[0] in words;
    if |words| == 1 {
      OneWord(words[0], separator);
    } else {
      assert forall w :: w in words[1..] ==> w in words;
      WordsAreSeparated(words[1..], separator);
      SeparatedJoin(words[0], separator, JoinedBy(words[1..], separator));
    }
  }

  lemma OneWord(w: string, separator: char)
    requires w != [] && separator !in w
    ensures Separated(w, separator)
  {
    assert forall i :: 0 <= i < |w| ==> w[i] in w;
  }

  ghost predicate InSome(words: seq<string>, c: char) {
    exists w :: w in words && c in w
  }

  /** The characters of joined words are theirs and the separator. */
  lemma {:induction false} WordsHold(words: seq<string>, separator: char, c: char)
    requires AreWords(words, separator)
    ensures c in JoinedBy(words, separator) <==> InSome(words, c) || (c == separator && |words| > 1)
  {
    assert words[0] in words;
    if |words| == 1 {
      assert InSome(words, c) <==> c in words[0];
    } else {
      assert forall w :: w in words <==> w == words[0] || w in words[1..];
      WordsHold(words[1..], separator, c);
    }
  }

  ghost predicate ReadsAs(s: string, separator: char, allowed: char -> bool, words: seq<string>) {
    && AreWords(words, separator) && JoinedBy(words, separator) == s
    && forall w, c :: w in words && c in w ==> allowed(c)
  }

  /** Text of words: it reads as segments of the allowed characters between separators. */
  lemma WordsRead(s: string, separator: char, allowed: char -> bool)
    requires !allowed(separator)
    ensures Separated(s, separator) && (forall c :: c in s ==> c == separator || allowed(c)) <==>
      exists words :: ReadsAs(s, separator, allowed, words)
  {
    hide Separated, AreWords;
    if Separated(s, separator) && forall c :: c in s ==> c == separator || allowed(c) {
      var words := SplitWords(s, separator);
      forall w, c | w in words && c in w ensures allowed(c) {
        assert InSome(words, c);
        WordsHold(words, separator, c);
        WordHasNone(words, separator, w);
      }
      assert ReadsAs(s, separator, allowed, words);
    }
    if words :| ReadsAs(s, separator, allowed, words) {
      WordsAreSeparated(words, separator);
      forall c | c in s ensures c == separator || allowed(c) {
        WordsHold(words, separator, c);
      }
    }
  }

  lemma WordHasNone(words: seq<string>, separator: char, w: string)
    requires AreWords(words, separator) && w in words
    ensures separator !in w
  {
  }

  /** x comes first among lists of texts: where they first differ its text comes first, or
  it ends there and y does not. */
  ghost predicate ListBefore(x: seq<string>, y: seq<string>) {
    if x == [] || y == [] then x == [] && y != []
    else TextBefore(x[0], y[0]) || (x[0] == y[0] && ListBefore(x[1..], y[1..]))
  }

  /** Two different NUL-free heads decide, whatever follows their NUL. */
  lemma {:induction false} HeadDecides(a: string, more: string, b: string, rest: string)
    requires NulFree(a) && NulFree(b) && a != b
    requires (more == [] || more[0] == NUL) && (rest == [] || rest[0] == NUL)
    ensures Compare(a + more, b + rest) == Compare(a, b)
  {
    if a != [] && b != [] {
      assert (a + more)[1..] == a[1..] + more && (b + rest)[1..] == b[1..] + rest;
      if a[0] == b[0] {
        assert a == [a[0]] + a[1..] && b == [b[0]] + b[1..];
        HeadDecides(a[1..], more, b[1..], rest);
      }
    } else if a == [] {
      assert b[0] in b && b[0] > NUL && a + more == more;
    } else {
      assert a[0] in a && a[0] > NUL && b + rest == rest;
    }
  }

  lemma {:induction false} SameHead(a: string, more: string, rest: string)
    ensures Compare(a + more, a + rest) == Compare(more, rest)
  {
    if a == [] {
      assert a + more == more && a + rest == rest;
    } else {
      assert (a + more)[1..] == a[1..] + more && (a + rest)[1..] == a[1..] + rest;
      SameHead(a[1..], more, rest);
    }
  }

  /** Joined by NUL, lists of NUL-free texts come in the order of the lists. */
  lemma {:induction false} JoinedOrder(x: seq<string>, y: seq<string>)
    requires x != [] && y != [] && forall p :: p in x || p in y ==> NulFree(p)
    ensures Compare(NulJoined(x), NulJoined(y)) < 0 <==> ListBefore(x, y)
    ensures Compare(NulJoined(x), NulJoined(y)) == 0 <==> x == y
  {
    var more := if |x| == 1 then [] else [NUL] + NulJoined(x[1..]);
    var rest := if |y| == 1 then [] else [NUL] + NulJoined(y[1..]);
    assert NulJoined(x) == x[0] + more && NulJoined(y) == y[0] + rest;
    CompareIsTextOrder(x[0], y[0]);
    if x[0] != y[0] {
      HeadDecides(x[0], more, y[0], rest);
    } else {
      SameHead(x[0], more, rest);
      assert x == [x[0]] + x[1..] && y == [y[0]] + y[1..];
      if |x| > 1 && |y| > 1 {
        JoinedOrder(x[1..], y[1..]);
        SameHead([NUL], NulJoined(x[1..]), NulJoined(y[1..]));
      }
    }
  }

  /** So do lists of NUL-free texts with a NUL after each. */
  lemma {:induction false} TerminatedOrder(x: seq<string>, y: seq<string>)
    requires forall p :: p in x || p in y ==> NulFree(p)
    ensures Compare(NulTerminated(x), NulTerminated(y)) < 0 <==> ListBefore(x, y)
    ensures Compare(NulTerminated(x), NulTerminated(y)) == 0 <==> x == y
  {
    if x != [] && y != [] {
      var more, rest := [NUL] + NulTerminated(x[1..]), [NUL] + NulTerminated(y[1..]);
      assert NulTerminated(x) == x[0] + more && NulTerminated(y) == y[0] + rest;
      CompareIsTextOrder(x[0], y[0]);
      if x[0] != y[0] {
        HeadDecides(x[0], more, y[0], rest);
      } else {
        TerminatedOrder(x[1..], y[1..]);
        SameHead(x[0], more, rest);
        SameHead([NUL], NulTerminated(x[1..]), NulTerminated(y[1..]));
        assert x == [x[0]] + x[1..] && y == [y[0]] + y[1..];
      }
    }
  }
}
