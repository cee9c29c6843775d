/**
 * The few Python `str` operations the relay relies on, over `seq<char>`:
 * `strip()`, `startswith`, the substring test `sub in s`, `s.split(sep)[0]`,
 * `s.split(sep)[-1]`, `sep.join(items)` and `urllib.parse.quote(s, safe=":/")`.
 */
module Text {
  import opened Options

  /** Python's `str.isspace()` for one character: exactly the characters `str.strip()` removes. */
  predicate IsSpace(c: char)
  {
    || ('\U{9}' <= c <= '\U{D}')
    || ('\U{1C}' <= c <= '\U{20}')
    || c == '\U{85}' || c == '\U{A0}' || c == '\U{1680}'
    || ('\U{2000}' <= c <= '\U{200A}')
    || c == '\U{2028}' || c == '\U{2029}' || c == '\U{202F}' || c == '\U{205F}' || c == '\U{3000}'
  }

  /** Every character is whitespace, so `s.strip()` is empty (Python: `not s.strip()`). */
  predicate Blank(s: string)
  {
    forall i :: 0 <= i < |s| ==> IsSpace(s[i])
  }

  /** `s.lstrip()`: the suffix left once the leading whitespace is gone. */
  function TrimStart(s: string): string
  {
    if |s| > 0 && IsSpace(s[0]) then TrimStart(s[1..]) else s
  }

  /** `lstrip()` keeps a suffix of its input, and that suffix does not start with whitespace. */
  lemma {:induction false} TrimStartSuffix(s: string)
    ensures var r := TrimStart(s);
      |r| <= |s| && r == s[|s| - |r|..] && (r == [] || !IsSpace(r[0]))
    decreases |s|
  {
    if |s| > 0 && IsSpace(s[0]) {
      TrimStartSuffix(s[1..]);
      var r := TrimStart(s);
      assert s[1..][|s| - 1 - |r|..] == s[|s| - |r|..];
    }
  }

  /** What `lstrip()` removes is whitespace. */
  lemma {:induction false} TrimStartRemovesBlank(s: string)
    ensures |TrimStart(s)| <= |s| && Blank(s[..|s| - |TrimStart(s)|])
    decreases |s|
  {
    TrimStartSuffix(s);
    if |s| > 0 && IsSpace(s[0]) {
      TrimStartRemovesBlank(s[1..]);
      var n := |s| - |TrimStart(s)|;
      assert s[..n] == [s[0]] + s[1..][..n - 1];
    }
  }

  /** `s.rstrip()`: the prefix left once the trailing whitespace is gone. */
  function TrimEnd(s: string): string
  {
    if |s| > 0 && IsSpace(s[|s| - 1]) then TrimEnd(s[..|s| - 1]) else s
  }

  /** `rstrip()` keeps a prefix of its input, and that prefix does not end with whitespace. */
  lemma {:induction false} TrimEndPrefix(s: string)
    ensures var r := TrimEnd(s);
      |r| <= |s| && r == s[..|r|] && (r == [] || !IsSpace(r[|r| - 1]))
    decreases |s|
  {
    if |s| > 0 && IsSpace(s[|s| - 1]) {
      TrimEndPrefix(s[..|s| - 1]);
      var r := TrimEnd(s);
      assert s[..|s| - 1][..|r|] == s[..|r|];
    }
  }

  /** What `rstrip()` removes is whitespace. */
  lemma {:induction false} TrimEndRemovesBlank(s: string)
    ensures |TrimEnd(s)| <= |s| && Blank(s[|TrimEnd(s)|..])
    decreases |s|
  {
    TrimEndPrefix(s);
    if |s| > 0 && IsSpace(s[|s| - 1]) {
      TrimEndRemovesBlank(s[..|s| - 1]);
      var r := TrimEnd(s);
      assert s[|r|..] == s[..|s| - 1][|r|..] + [s[|s| - 1]];
    }
  }

  /** Python's `s.strip()`: what is left starts and ends with non-whitespace. */
  function Strip(s: string): string
  {
    TrimEnd(TrimStart(s))
  }

  /** What `strip()` leaves is no longer than its input and starts and ends with non-whitespace. */
  lemma {:induction false} StripEnds(s: string)
    ensures var r := Strip(s);
      |r| <= |s| && (r != [] ==> !IsSpace(r[0]) && !IsSpace(r[|r| - 1]))
  {
    var t := TrimStart(s);
    TrimStartSuffix(s);
    TrimEndPrefix(t);
    var r := Strip(s);
    if r != [] {
      assert r[0] == t[0];
    }
  }

  /** `s.strip()` is empty exactly when `s` is all whitespace (Python: `not s.strip()`). */
  lemma {:induction false} StripEmptyIffBlank(s: string)
    ensures Strip(s) == [] <==> Blank(s)
  {
    var t := TrimStart(s);
    TrimStartSuffix(s);
    TrimEndPrefix(t);
    TrimStartRemovesBlank(s);
    TrimEndRemovesBlank(t);
    if Strip(s) == [] {
      assert s == s[..|s| - |t|] + t;
      assert t == t[0..];
    }
    if t != [] {
      assert t[0] == s[|s| - |t|];
    }
  }

  /** Stripping leaves a string alone when it neither starts nor ends with whitespace. */
  lemma {:induction false} StripClean(s: string)
    requires s == [] || (!IsSpace(s[0]) && !IsSpace(s[|s| - 1]))
    ensures Strip(s) == s
  {
  }

  /** Stripping twice is stripping once. */
  lemma {:induction false} StripIdempotent(s: string)
    ensures Strip(Strip(s)) == Strip(s)
  {
    StripEnds(s);
    StripClean(Strip(s));
  }

  /** Whitespace appended to a string is lost again by `strip()`. */
  lemma {:induction false} StripTrailingBlank(s: string, w: string)
    requires Blank(w)
    ensures Strip(s + w) == Strip(s)
  {
    TrimEndTrailingBlank(TrimStart(s), w);
    TrimStartAppend(s, w);
  }

  lemma {:induction false} TrimEndTrailingBlank(t: string, w: string)
    requires Blank(w)
    ensures TrimEnd(t + w) == TrimEnd(t)
    decreases |w|
  {
    if w != [] {
      var u := t + w[..|w| - 1];
      assert (t + w)[..|t + w| - 1] == u;
      TrimEndTrailingBlank(t, w[..|w| - 1]);
    } else {
      assert t + w == t;
    }
  }

  lemma {:induction false} TrimStartAppend(s: string, w: string)
    requires Blank(w)
    ensures TrimEnd(TrimStart(s + w)) == TrimEnd(TrimStart(s) + w)
    decreases |s|
  {
    if |s| > 0 && IsSpace(s[0]) {
      assert (s + w)[1..] == s[1..] + w;
      TrimStartAppend(s[1..], w);
    } else if |s| == 0 {
      assert s + w == w && TrimStart(s) == s;
      BlankTrimStart(w);
      BlankTrimsAway(w);
    } else {
      assert (s + w)[0] == s[0];
      assert TrimStart(s + w) == s + w && TrimStart(s) == s;
    }
  }

  lemma {:induction false} BlankTrimStart(t: string)
    requires Blank(t)
    ensures TrimStart(t) == []
  {
    if t != [] {
      BlankTrimStart(t[1..]);
    }
  }

  lemma {:induction false} BlankTrimsAway(t: string)
    requires Blank(t)
    ensures TrimEnd(t) == []
  {
    if t != [] {
      BlankTrimsAway(t[..|t| - 1]);
    }
  }

  /** Python's `s.startswith(p)`. */
  predicate StartsWith(s: string, p: string)
  {
    |p| <= |s| && forall i :: 0 <= i < |p| ==> s[i] == p[i]
  }

  /** `sub` occurs in `s` starting at index `i`. */
  predicate OccursAt(s: string, sub: string, i: int)
  {
    0 <= i && i + |sub| <= |s| && forall t :: 0 <= t < |sub| ==> s[i + t] == sub[t]
  }

  /** Python's substring test `sub in s`. */
  predicate Contains(s: string, sub: string)
  {
    exists i | 0 <= i <= |s| - |sub| :: OccursAt(s, sub, i)
  }

  /** An occurrence inside a suffix is an occurrence in the whole string, shifted. */
  lemma {:induction false} OccursInSuffix(s: string, sub: string, k: nat, j: int)
    requires k <= |s|
    ensures OccursAt(s[k..], sub, j) <==> (j >= 0 && OccursAt(s, sub, k + j))
  {
    if j >= 0 && k + j + |sub| <= |s| {
      assert s[k..][j..j + |sub|] == s[k + j..k + j + |sub|];
    }
  }

  /** An occurrence inside a prefix is an occurrence in the whole string. */
  lemma {:induction false} OccursInPrefix(s: string, sub: string, n: nat, j: int)
    requires n <= |s|
    requires OccursAt(s[..n], sub, j)
    ensures OccursAt(s, sub, j) && j + |sub| <= n
  {
    assert s[..n][j..j + |sub|] == s[j..j + |sub|];
  }

  /** A one-character needle: `[c] in s` is plain membership. */
  lemma {:induction false} ContainsChar(s: string, c: char)
    ensures Contains(s, [c]) <==> c in s
  {
    if c in s {
      var i :| 0 <= i < |s| && s[i] == c;
      assert s[i..i + 1] == [c];
      assert OccursAt(s, [c], i);
    }
    if Contains(s, [c]) {
      var i :| 0 <= i <= |s| - 1 && OccursAt(s, [c], i);
      assert s[i + 0] == [c][0];
    }
  }

  /** Python's `s.find(sub, from)` as an option: the leftmost occurrence at or after `from`, or none. */
  function IndexFrom(s: string, sub: string, from: nat): (r: Option<nat>)
    ensures r.Some? ==> from <= r.value && r.value + |sub| <= |s|
    decreases |s| - from
  {
    if |s| < from + |sub| then None
    else if OccursAt(s, sub, from) then Some(from)
    else IndexFrom(s, sub, from + 1)
  }

  /** `find` from `from` gives an occurrence with none between `from` and it, or says there is none from `from` on. */
  lemma {:induction false} IndexFromSpec(s: string, sub: string, from: nat)
    ensures var r := IndexFrom(s, sub, from);
      (r.Some? ==> OccursAt(s, sub, r.value) && forall j :: from <= j < r.value ==> !OccursAt(s, sub, j)) &&
      (r.None? ==> forall j :: from <= j ==> !OccursAt(s, sub, j))
    decreases |s| - from
  {
    if |s| < from + |sub| {
    } else if OccursAt(s, sub, from) {
    } else {
      IndexFromSpec(s, sub, from + 1);
    }
  }

  /** Python's `s.find(sub)` as an option: the leftmost occurrence, or none. */
  function IndexOf(s: string, sub: string): Option<nat>
  {
    IndexFrom(s, sub, 0)
  }

  /** `find` gives an occurrence with none before it, and gives none exactly when there is no occurrence. */
  lemma {:induction false} IndexOfSpec(s: string, sub: string)
    ensures var r := IndexOf(s, sub);
      (r.Some? ==> r.value + |sub| <= |s| && OccursAt(s, sub, r.value)) &&
      (r.Some? ==> forall j :: 0 <= j < r.value ==> !OccursAt(s, sub, j)) &&
      (r.None? <==> !Contains(s, sub))
  {
    IndexFromSpec(s, sub, 0);
  }

  /** Python's `s.split(sep)[0]`: the text before the first `sep`, or all of `s`. */
  function SplitFirst(s: string, sep: string): string
    requires sep != []
  {
    match IndexOf(s, sep)
    case None => s
    case Some(i) => s[..i]
  }

  /**
   * `split(sep)[0]` is a prefix free of `sep`, ending where the first `sep` starts
   * (no occurrence starts inside it), or the whole string when there is none.
   */
  lemma {:induction false} SplitFirstSpec(s: string, sep: string)
    requires sep != []
    ensures var r := SplitFirst(s, sep);
      |r| <= |s| && r == s[..|r|] && !Contains(r, sep) &&
      (forall j :: 0 <= j < |r| ==> !OccursAt(s, sep, j)) &&
      (Contains(s, sep) ==> OccursAt(s, sep, |r|)) &&
      (!Contains(s, sep) ==> r == s)
  {
    IndexOfSpec(s, sep);
    match IndexOf(s, sep)
    case None =>
    case Some(i) =>
      assert !Contains(s[..i], sep) by {
        if Contains(s[..i], sep) {
          var j :| 0 <= j <= i - |sep| && OccursAt(s[..i], sep, j);
          OccursInPrefix(s, sep, i, j);
        }
      }
  }

  /**
   * Where the last piece of `s.split(sep)` starts when splitting from `from` on:
   * just after the last of the non-overlapping occurrences found left to right.
   */
  function LastStart(s: string, sep: string, from: nat): (k: nat)
    requires sep != [] && from <= |s|
    ensures from <= k <= |s|
    decreases |s| - from
  {
    match IndexFrom(s, sep, from)
    case None => from
    case Some(i) => LastStart(s, sep, i + |sep|)
  }

  /** No occurrence of `sep` starts at or after `LastStart`. */
  lemma {:induction false} LastStartFinal(s: string, sep: string, from: nat, j: int)
    requires sep != [] && from <= |s| && LastStart(s, sep, from) <= j
    ensures !OccursAt(s, sep, j)
    decreases |s| - from
  {
    IndexFromSpec(s, sep, from);
    match IndexFrom(s, sep, from)
    case None =>
      assert LastStart(s, sep, from) == from;
    case Some(i) =>
      assert LastStart(s, sep, from) == LastStart(s, sep, i + |sep|);
      LastStartFinal(s, sep, i + |sep|, j);
  }

  /** Past `from`, `LastStart` is the end of an occurrence of `sep`. */
  lemma {:induction false} LastStartAfterSep(s: string, sep: string, from: nat)
    requires sep != [] && from <= |s|
    ensures LastStart(s, sep, from) > from ==> OccursAt(s, sep, LastStart(s, sep, from) - |sep|)
    decreases |s| - from
  {
    IndexFromSpec(s, sep, from);
    match IndexFrom(s, sep, from)
    case None =>
    case Some(i) =>
      var k := LastStart(s, sep, i + |sep|);
      assert LastStart(s, sep, from) == k;
      LastStartAfterSep(s, sep, i + |sep|);
  }

  /** Python's `s.split(sep)[-1]`: the text after the last `sep`, or all of `s`. */
  function SplitLast(s: string, sep: string): string
    requires sep != []
  {
    s[LastStart(s, sep, 0)..]
  }

  /** `split(sep)[-1]` holds no `sep`. */
  lemma {:induction false} SplitLastClean(s: string, sep: string)
    requires sep != []
    ensures !Contains(SplitLast(s, sep), sep)
  {
    var k := LastStart(s, sep, 0);
    var r := s[k..];
    if Contains(r, sep) {
      var j :| 0 <= j <= |r| - |sep| && OccursAt(r, sep, j);
      OccursInSuffix(s, sep, k, j);
      LastStartFinal(s, sep, 0, k + j);
    }
  }

  /**
   * `split(sep)[-1]` is a suffix free of `sep`, starting where the last `sep` ends,
   * or the whole string when there is none.
   */
  lemma {:induction false} SplitLastSpec(s: string, sep: string)
    requires sep != []
    ensures var r := SplitLast(s, sep);
      |r| <= |s| && r == s[|s| - |r|..] && !Contains(r, sep) &&
      (Contains(s, sep) ==> OccursAt(s, sep, |s| - |r| - |sep|)) &&
      (!Contains(s, sep) ==> r == s)
  {
    var k := LastStart(s, sep, 0);
    var r := s[k..];
    assert |s| - |r| == k;
    SplitLastClean(s, sep);
    IndexOfSpec(s, sep);
    if Contains(s, sep) {
      var i := IndexOf(s, sep).value;
      assert k == LastStart(s, sep, i + |sep|);
      LastStartAfterSep(s, sep, 0);
    }
  }

  /** With a one-character separator absent from `tail`, `(p + [c] + tail).split(c)[-1]` is `tail`. */
  lemma {:induction false} AfterLastChar(p: string, tail: string, c: char)
    requires c !in tail
    ensures SplitLast(p + [c] + tail, [c]) == tail
  {
    var s := p + [c] + tail;
    assert OccursAt(s, [c], |p|) by {
      assert s[|p|..|p| + 1] == [c];
    }
    var r := SplitLast(s, [c]);
    SplitLastSpec(s, [c]);
    var at := |s| - |r| - 1;
    assert c !in r by {
      ContainsChar(r, c);
    }
    assert s[at] == c by {
      assert s[at..at + 1] == [c];
    }
    assert s[|p| + 1..] == tail;
    LastCharPosition(s, at, |p|, c);
  }

  /** Two positions of `c` each followed only by characters other than `c` are the same position. */
  lemma {:induction false} LastCharPosition(s: string, at: nat, k: nat, c: char)
    requires at < |s| && s[at] == c && c !in s[at + 1..]
    requires k < |s| && s[k] == c && c !in s[k + 1..]
    ensures at == k
  {
    assert forall j :: at < j < |s| ==> s[j] == s[at + 1..][j - at - 1];
    assert forall j :: k < j < |s| ==> s[j] == s[k + 1..][j - k - 1];
  }

  /** With a one-character separator absent from `u`, `(u + [d] + q).split(d)[0]` is `u`. */
  lemma {:induction false} BeforeFirstChar(u: string, q: string, d: char)
    requires d !in u
    ensures SplitFirst(u + [d] + q, [d]) == u
  {
    var s := u + [d] + q;
    assert OccursAt(s, [d], |u|) by {
      assert s[|u|..|u| + 1] == [d];
    }
    var f := SplitFirst(s, [d]);
    SplitFirstSpec(s, [d]);
    assert d !in f by {
      ContainsChar(f, d);
    }
    assert s[|f|] == d by {
      assert OccursAt(s, [d], |f|);
      assert s[|f|..|f| + 1] == [d];
    }
    assert d !in s[..|f|] by {
      assert s[..|f|] == f;
    }
    assert d !in s[..|u|] && s[|u|] == d by {
      assert s[..|u|] == u;
    }
    FirstCharPosition(s, |f|, |u|, d);
    assert f == s[..|u|] == u;
  }

  /** Two positions of `c` each preceded only by characters other than `c` are the same position. */
  lemma {:induction false} FirstCharPosition(s: string, at: nat, k: nat, c: char)
    requires at < |s| && s[at] == c && c !in s[..at]
    requires k < |s| && s[k] == c && c !in s[..k]
    ensures at == k
  {
    assert forall j :: 0 <= j < at ==> s[j] == s[..at][j];
    assert forall j :: 0 <= j < k ==> s[j] == s[..k][j];
  }

  /**
   * `s.split(c)[-1].split(d)[0]` on a string of the shape `p + [c] + u + [d] + q`
   * is `u`, provided `c` appears in none of `u`, `d`, `q` and `d` does not appear in `u`.
   */
  lemma {:induction false} BetweenLastAndNext(p: string, u: string, q: string, c: char, d: char)
    requires c != d && c !in u && c !in q && d !in u
    ensures SplitFirst(SplitLast(p + [c] + u + [d] + q, [c]), [d]) == u
  {
    assert p + [c] + u + [d] + q == p + [c] + (u + [d] + q);
    AfterLastChar(p, u + [d] + q, c);
    BeforeFirstChar(u, q, d);
  }

  /** Python's `sep.join(items)`. */
  function Join(items: seq<string>, sep: string): (r: string)
    ensures items == [] ==> r == []
    ensures |items| == 1 ==> r == items[0]
  {
    if |items| == 0 then []
    else if |items| == 1 then items[0]
    else items[0] + sep + Join(items[1..], sep)
  }

  /** The characters `urllib.parse.quote(s, safe=":/")` keeps as they are. */
  predicate UrlSafe(c: char)
  {
    || ('A' <= c <= 'Z') || ('a' <= c <= 'z') || ('0' <= c <= '9')
    || c == '_' || c == '.' || c == '-' || c == '~' || c == ':' || c == '/'
  }

  /** The UTF-8 encoding of one Unicode scalar value. */
  function Utf8(c: char): (bytes: seq<int>)
    ensures 1 <= |bytes| <= 4
    ensures forall i :: 0 <= i < |bytes| ==> 0 <= bytes[i] < 256
    ensures (c as int) < 0x80 ==> bytes == [c as int]
  {
    var n := c as int;
    if n < 0x80 then [n]
    else if n < 0x800 then [0xC0 + n / 64, 0x80 + n % 64]
    else if n < 0x10000 then [0xE0 + n / 4096, 0x80 + (n / 64) % 64, 0x80 + n % 64]
    else [0xF0 + n / 262144, 0x80 + (n / 4096) % 64, 0x80 + (n / 64) % 64, 0x80 + n % 64]
  }

  /** The bits a UTF-8 lead byte carries, for a sequence of `len` bytes. */
  function LeadBits(lead: int, len: nat): int
  {
    if len <= 1 then lead else if len == 2 then lead - 0xC0 else if len == 3 then lead - 0xE0 else lead - 0xF0
  }

  /** Appends the six bits each continuation byte carries to `acc`. */
  function ContinuationBits(acc: int, rest: seq<int>): int
    decreases |rest|
  {
    if rest == [] then acc else ContinuationBits(acc * 64 + (rest[0] - 0x80), rest[1..])
  }

  /** What a UTF-8 decoder reads back from a byte sequence. */
  function Utf8Value(bytes: seq<int>): int
    requires bytes != []
  {
    ContinuationBits(LeadBits(bytes[0], |bytes|), bytes[1..])
  }

  /**
   * `Utf8` is the standard encoding: the shortest length for the value, a lead byte
   * marking that length, continuation bytes `10xxxxxx`, and a decoder reads the
   * character back.
   */
  lemma {:induction false} Utf8Decodes(c: char)
    ensures var bytes := Utf8(c); var n := c as int;
      && |bytes| == (if n < 0x80 then 1 else if n < 0x800 then 2 else if n < 0x10000 then 3 else 4)
      && (|bytes| == 1 ==> bytes[0] < 0x80)
      && (|bytes| == 2 ==> 0xC0 <= bytes[0] < 0xE0)
      && (|bytes| == 3 ==> 0xE0 <= bytes[0] < 0xF0)
      && (|bytes| == 4 ==> 0xF0 <= bytes[0] < 0xF8)
      && (forall i :: 1 <= i < |bytes| ==> 0x80 <= bytes[i] < 0xC0)
      && Utf8Value(bytes) == n
  {
    var n := c as int;
    if n < 0x80 {
    } else if n < 0x800 {
      TwoByteValue(n);
      assert Utf8(c)[1..] == [0x80 + n % 64];
    } else if n < 0x10000 {
      ThreeByteValue(n);
      assert Utf8(c)[1..] == [0x80 + (n / 64) % 64, 0x80 + n % 64];
    } else {
      FourByteValue(n);
      assert Utf8(c)[1..] == [0x80 + (n / 4096) % 64, 0x80 + (n / 64) % 64, 0x80 + n % 64];
    }
  }

  /** The two-byte form carries the value's bits: five in the lead byte, six in the other. */
  lemma {:induction false} TwoByteValue(n: int)
    requires 0x80 <= n < 0x800
    ensures 2 <= n / 64 < 32
    ensures ContinuationBits(n / 64, [0x80 + n % 64]) == n
  {
    assert [0x80 + n % 64][1..] == [];
  }

  /** The three-byte form carries the value's bits: four in the lead byte, six in each other. */
  lemma {:induction false} ThreeByteValue(n: int)
    requires 0x800 <= n < 0x10000
    ensures 0 <= n / 4096 < 16
    ensures ContinuationBits(n / 4096, [0x80 + (n / 64) % 64, 0x80 + n % 64]) == n
  {
    var a, b, d := n / 4096, (n / 64) % 64, n % 64;
    assert n / 64 == a * 64 + b;
    assert n == (a * 64 + b) * 64 + d;
    assert [0x80 + b, 0x80 + d][1..] == [0x80 + d];
    assert [0x80 + d][1..] == [];
    assert ContinuationBits(a, [0x80 + b, 0x80 + d]) == ContinuationBits(a * 64 + b, [0x80 + d]);
    assert ContinuationBits(a * 64 + b, [0x80 + d]) == ContinuationBits(n, []);
  }

  /** The four-byte form carries the value's bits: three in the lead byte, six in each other. */
  lemma {:induction false} FourByteValue(n: int)
    requires 0x10000 <= n < 0x110000
    ensures 0 <= n / 262144 < 8
    ensures ContinuationBits(n / 262144, [0x80 + (n / 4096) % 64, 0x80 + (n / 64) % 64, 0x80 + n % 64]) == n
  {
    var a, b, e, d := n / 262144, (n / 4096) % 64, (n / 64) % 64, n % 64;
    assert n / 4096 == a * 64 + b;
    assert n / 64 == (a * 64 + b) * 64 + e;
    assert n == ((a * 64 + b) * 64 + e) * 64 + d;
    assert [0x80 + b, 0x80 + e, 0x80 + d][1..] == [0x80 + e, 0x80 + d];
    assert [0x80 + e, 0x80 + d][1..] == [0x80 + d];
    assert [0x80 + d][1..] == [];
    assert ContinuationBits(a, [0x80 + b, 0x80 + e, 0x80 + d]) == ContinuationBits(a * 64 + b, [0x80 + e, 0x80 + d]);
    assert ContinuationBits(a * 64 + b, [0x80 + e, 0x80 + d]) == ContinuationBits((a * 64 + b) * 64 + e, [0x80 + d]);
    assert ContinuationBits((a * 64 + b) * 64 + e, [0x80 + d]) == ContinuationBits(n, []);
  }

  const HexDigits: string := "0123456789ABCDEF"

  /** Each byte written as `%XX` with upper-case hexadecimal digits. */
  function PercentEncode(bytes: seq<int>): (r: string)
    requires forall i :: 0 <= i < |bytes| ==> 0 <= bytes[i] < 256
    ensures |r| == 3 * |bytes|
  {
    if bytes == [] then []
    else ['%', HexDigits[bytes[0] / 16], HexDigits[bytes[0] % 16]] + PercentEncode(bytes[1..])
  }

  /** Byte `i` becomes the three characters from `3 * i` on: `%`, then its high and its low hexadecimal digit. */
  lemma {:induction false} PercentEncodeDigits(bytes: seq<int>)
    requires forall i :: 0 <= i < |bytes| ==> 0 <= bytes[i] < 256
    ensures forall i :: 0 <= i < |bytes| ==>
      PercentEncode(bytes)[3 * i] == '%' &&
      PercentEncode(bytes)[3 * i + 1] == HexDigits[bytes[i] / 16] &&
      PercentEncode(bytes)[3 * i + 2] == HexDigits[bytes[i] % 16]
  {
    forall i | 0 <= i < |bytes|
      ensures var r := PercentEncode(bytes);
        r[3 * i] == '%' && r[3 * i + 1] == HexDigits[bytes[i] / 16] && r[3 * i + 2] == HexDigits[bytes[i] % 16]
    {
      PercentEncodeAt(bytes, i);
    }
  }

  /** The three characters byte `i` becomes. */
  lemma {:induction false} PercentEncodeAt(bytes: seq<int>, i: nat)
    requires forall k :: 0 <= k < |bytes| ==> 0 <= bytes[k] < 256
    requires i < |bytes|
    ensures var r := PercentEncode(bytes);
      r[3 * i] == '%' && r[3 * i + 1] == HexDigits[bytes[i] / 16] && r[3 * i + 2] == HexDigits[bytes[i] % 16]
    decreases i
  {
    var r := PercentEncode(bytes);
    var rest := PercentEncode(bytes[1..]);
    assert r == ['%', HexDigits[bytes[0] / 16], HexDigits[bytes[0] % 16]] + rest;
    if i > 0 {
      var j := 3 * (i - 1);
      PercentEncodeAt(bytes[1..], i - 1);
      assert bytes[1..][i - 1] == bytes[i];
      assert r[j + 3] == rest[j] && r[j + 4] == rest[j + 1] && r[j + 5] == rest[j + 2];
    }
  }

  /** An upper-case hexadecimal digit. */
  predicate IsHexDigit(c: char)
  {
    ('0' <= c <= '9') || ('A' <= c <= 'F')
  }

  lemma {:induction false} HexDigitsAreDigits(k: int)
    requires 0 <= k < 16
    ensures IsHexDigit(HexDigits[k])
  {
  }

  /** Percent-encoding yields only `%` and upper-case hexadecimal digits. */
  lemma {:induction false} PercentEncodeAlphabet(bytes: seq<int>)
    requires forall i :: 0 <= i < |bytes| ==> 0 <= bytes[i] < 256
    ensures forall k :: 0 <= k < |PercentEncode(bytes)| ==>
      PercentEncode(bytes)[k] == '%' || IsHexDigit(PercentEncode(bytes)[k])
  {
    var r := PercentEncode(bytes);
    forall k | 0 <= k < |r|
      ensures r[k] == '%' || IsHexDigit(r[k])
    {
      var i := k / 3;
      PercentEncodeAt(bytes, i);
      HexDigitsAreDigits(bytes[i] / 16);
      HexDigitsAreDigits(bytes[i] % 16);
      assert k == 3 * i || k == 3 * i + 1 || k == 3 * i + 2;
    }
  }

  /** What `quote` makes of one character: itself when safe, else its UTF-8 bytes percent-encoded. */
  function QuoteChar(c: char): string
  {
    if UrlSafe(c) then [c] else PercentEncode(Utf8(c))
  }

  /** `urllib.parse.quote(s, safe=":/")`. */
  function Quote(s: string): string
  {
    if s == [] then [] else QuoteChar(s[0]) + Quote(s[1..])
  }

  /** A URL made only of safe characters passes through `quote` unchanged. */
  lemma {:induction false} QuoteKeepsSafe(s: string)
    requires forall i :: 0 <= i < |s| ==> UrlSafe(s[i])
    ensures Quote(s) == s
  {
    if s != [] {
      QuoteKeepsSafe(s[1..]);
    }
  }

  /** `quote` yields only safe characters, `%` and hexadecimal digits. */
  lemma {:induction false} QuoteAlphabet(s: string)
    ensures forall i :: 0 <= i < |Quote(s)| ==> UrlSafe(Quote(s)[i]) || Quote(s)[i] == '%'
  {
    if s != [] {
      QuoteAlphabet(s[1..]);
      QuoteCharAlphabet(s[0]);
      var head := QuoteChar(s[0]);
      var rest := Quote(s[1..]);
      assert Quote(s) == head + rest;
      forall i | 0 <= i < |Quote(s)|
        ensures UrlSafe(Quote(s)[i]) || Quote(s)[i] == '%'
      {
        if i >= |head| {
          assert Quote(s)[i] == rest[i - |head|];
        }
      }
    }
  }

  /** One character's part of `quote` holds only safe characters and `%`. */
  lemma {:induction false} QuoteCharAlphabet(c: char)
    ensures forall i :: 0 <= i < |QuoteChar(c)| ==> UrlSafe(QuoteChar(c)[i]) || QuoteChar(c)[i] == '%'
  {
    if !UrlSafe(c) {
      PercentEncodeAlphabet(Utf8(c));
    }
  }
}
