/** The string handling the vault applies to every name it is given:
    Python's `str.lower()` and `str.strip()`, restricted to ASCII. */
module Text {

  /** The ASCII characters Python's `str.isspace()` accepts: tab, line
      feed, vertical tab, form feed and carriage return (0x09-0x0D), the
      four information separators (0x1C-0x1F), and space (0x20). */
  predicate IsSpace(c: char) {
    '\t' <= c <= '\r' || '\U{001C}' <= c <= ' '
  }

  predicate IsUpper(c: char) {
    'A' <= c <= 'Z'
  }

  predicate AllSpace(s: string) {
    forall i | 0 <= i < |s| :: IsSpace(s[i])
  }

  predicate NoUpper(s: string) {
    forall i | 0 <= i < |s| :: !IsUpper(s[i])
  }

  /** Neither end of `s` is whitespace: what `strip()` guarantees. */
  predicate Trimmed(s: string) {
    s == [] || (!IsSpace(s[0]) && !IsSpace(s[|s| - 1]))
  }

  function LowerChar(c: char): (d: char)
    ensures !IsUpper(d)
    ensures IsSpace(c) ==> d == c
    ensures !IsUpper(c) ==> d == c
  {
    if IsUpper(c) then (c as int + 32) as char else c
  }

  /** `str.lower()` on ASCII letters; every other character is kept. */
  function Lower(s: string): (r: string)
    ensures |r| == |s|
    ensures NoUpper(r)
    ensures forall i | 0 <= i < |s| :: r[i] == LowerChar(s[i])
  {
    seq(|s|, i requires 0 <= i < |s| => LowerChar(s[i]))
  }

  /** `str.lstrip()`: drops the whitespace at the start of `s`. */
  function TrimStart(s: string): (r: string)
    ensures |r| <= |s|
  {
    if |s| > 0 && IsSpace(s[0]) then TrimStart(s[1..]) else s
  }

  /** `str.rstrip()`: drops the whitespace at the end of `s`. */
  function TrimEnd(s: string): (r: string)
    ensures |r| <= |s|
  {
    if |s| > 0 && IsSpace(s[|s| - 1]) then TrimEnd(s[..|s| - 1]) else s
  }

  /** `lstrip()` keeps the longest suffix of `s` that does not start with
      whitespace: everything it drops is whitespace. */
  lemma {:induction false} TrimStartSpec(s: string)
    ensures TrimStart(s) == s[|s| - |TrimStart(s)|..]
    ensures AllSpace(s[..|s| - |TrimStart(s)|])
    ensures TrimStart(s) == [] || !IsSpace(TrimStart(s)[0])
  {
    if |s| > 0 && IsSpace(s[0]) {
      TrimStartSpec(s[1..]);
      var k := |s| - |TrimStart(s)|;
      assert s[..k] == [s[0]] + s[1..][..k - 1];
    }
  }

  /** `rstrip()` keeps the longest prefix of `s` that does not end with
      whitespace: everything it drops is whitespace. */
  lemma {:induction false} TrimEndSpec(s: string)
    ensures TrimEnd(s) == s[..|TrimEnd(s)|]
    ensures AllSpace(s[|TrimEnd(s)|..])
    ensures TrimEnd(s) == [] || !IsSpace(TrimEnd(s)[|TrimEnd(s)| - 1])
  {
    if |s| > 0 && IsSpace(s[|s| - 1]) {
      var n := |s| - 1;
      TrimEndSpec(s[..n]);
      var k := |TrimEnd(s)|;
      assert s[k..] == s[..n][k..] + [s[n]];
    }
  }

  /** `str.strip()`: `s` with its leading and trailing whitespace removed. */
  function Strip(s: string): (r: string)
    ensures Trimmed(r)
    ensures |r| <= |s|
  {
    var t := TrimStart(s);
    TrimStartSpec(s);
    TrimEndSpec(t);
    TrimEnd(t)
  }

  /** What `strip()` removes is whitespace, and only whitespace: the
      result is a slice of `s` with nothing but whitespace on either side. */
  lemma StripRemovesOnlyPadding(s: string)
    ensures exists i | 0 <= i <= |s| - |Strip(s)| ::
      Strip(s) == s[i..i + |Strip(s)|] && AllSpace(s[..i]) && AllSpace(s[i + |Strip(s)|..])
  {
    var t := TrimStart(s);
    var r := TrimEnd(t);
    TrimStartSpec(s);
    TrimEndSpec(t);
    var i := |s| - |t|;
    assert t == s[i..];
    assert r == t[..|r|];
    assert r == s[i..i + |r|];
    assert s[i + |r|..] == t[|r|..];
    assert AllSpace(s[..i]) && AllSpace(s[i + |r|..]);
  }

  /** The normal form of a service name, and of the answers to the
      generate-or-type, copy and delete-confirmation prompts:
      `s.lower().strip()`. The top-level menu choice is not normalised. */
  function Normalize(s: string): (r: string)
    ensures NoUpper(r)
    ensures Trimmed(r)
    ensures |r| <= |s|
  {
    var r := Strip(Lower(s));
    StripKeepsNoUpper(Lower(s));
    r
  }

  lemma StripKeepsNoUpper(s: string)
    requires NoUpper(s)
    ensures NoUpper(Strip(s))
  {
    var t := TrimStart(s);
    TrimStartSpec(s);
    TrimEndSpec(t);
    assert NoUpper(t) by {
      forall i | 0 <= i < |t|
        ensures !IsUpper(t[i])
      {
        assert t[i] == s[|s| - |t| + i];
      }
    }
    var r := TrimEnd(t);
    assert forall i | 0 <= i < |r| :: r[i] == t[i];
  }

  lemma LowerOfNoUpper(s: string)
    requires NoUpper(s)
    ensures Lower(s) == s
  {
  }

  lemma LowerAppend(a: string, b: string)
    ensures Lower(a + b) == Lower(a) + Lower(b)
  {
  }

  lemma LowerOfSpace(s: string)
    requires AllSpace(s)
    ensures Lower(s) == s
  {
  }

  /** Stripping a string whose ends are already non-blank changes nothing. */
  lemma StripOfTrimmed(s: string)
    requires Trimmed(s)
    ensures Strip(s) == s
  {
  }

  lemma {:induction false} TrimStartSkipsSpace(pre: string, x: string)
    requires AllSpace(pre)
    ensures TrimStart(pre + x) == TrimStart(x)
  {
    if pre != [] {
      assert (pre + x)[1..] == pre[1..] + x;
      TrimStartSkipsSpace(pre[1..], x);
    } else {
      assert pre + x == x;
    }
  }

  lemma {:induction false} TrimEndSkipsSpace(x: string, post: string)
    requires AllSpace(post)
    ensures TrimEnd(x + post) == TrimEnd(x)
  {
    if post != [] {
      var n := |post| - 1;
      assert (x + post)[..|x + post| - 1] == x + post[..n];
      TrimEndSkipsSpace(x, post[..n]);
    } else {
      assert x + post == x;
    }
  }

  lemma {:induction false} TrimStartAppend(x: string, post: string)
    requires !AllSpace(x)
    ensures TrimStart(x + post) == TrimStart(x) + post
  {
    assert x != [];
    if IsSpace(x[0]) {
      assert !AllSpace(x[1..]);
      assert (x + post)[1..] == x[1..] + post;
      TrimStartAppend(x[1..], post);
    }
  }

  /** Whitespace around a string does not change what `strip()` returns. */
  lemma StripIgnoresPadding(pre: string, x: string, post: string)
    requires AllSpace(pre) && AllSpace(post)
    ensures Strip(pre + x + post) == Strip(x)
  {
    assert pre + x + post == pre + (x + post);
    TrimStartSkipsSpace(pre, x + post);
    if AllSpace(x) {
      assert AllSpace(x + post);
      TrimStartSkipsSpace(x + post, []);
      TrimStartSkipsSpace(x, []);
      assert x + post + [] == x + post;
      assert x + [] == x;
    } else {
      TrimStartAppend(x, post);
      TrimEndSkipsSpace(TrimStart(x), post);
    }
  }

  /** Normalising a normal form changes nothing, so a name read back from
      the vault addresses the same entry it was stored under. */
  lemma NormalizeIdempotent(s: string)
    ensures Normalize(Normalize(s)) == Normalize(s)
  {
    var r := Normalize(s);
    LowerOfNoUpper(r);
    StripOfTrimmed(r);
  }

  /** Two names that differ only in ASCII letter case and in surrounding
      whitespace have the same normal form. */
  lemma NormalizeIgnoresCaseAndPadding(s: string, pre: string, t: string, post: string)
    requires AllSpace(pre) && AllSpace(post)
    requires Lower(t) == Lower(s)
    ensures Normalize(pre + t + post) == Normalize(s)
  {
    LowerAppend(pre + t, post);
    LowerAppend(pre, t);
    LowerOfSpace(pre);
    LowerOfSpace(post);
    StripIgnoresPadding(pre, Lower(s), post);
  }
}
