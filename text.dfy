/** The JavaScript string operations the core relies on, written out over
    `seq<char>`: `trim`, `startsWith`, `indexOf`, `split` on one character
    and `replace` with a string pattern. */
module Text {
  import opened Wrappers

  /** The code points `String.prototype.trim` removes: ECMAScript WhiteSpace
      (tab, VT, FF, space, NBSP, BOM and the Zs category) and LineTerminator. */
  predicate IsSpace(c: char) {
    || c == '\t' || c == '\n' || c == '\U{000B}' || c == '\U{000C}' || c == '\r'
    || c == ' ' || c == '\U{00A0}' || c == '\U{1680}'
    || ('\U{2000}' <= c <= '\U{200A}')
    || c == '\U{2028}' || c == '\U{2029}' || c == '\U{202F}' || c == '\U{205F}'
    || c == '\U{3000}' || c == '\U{FEFF}'
  }

  predicate AllSpace(s: string) {
    forall i :: 0 <= i < |s| ==> IsSpace(s[i])
  }

  /** No white space at either end. */
  predicate Trimmed(s: string) {
    s == [] || (!IsSpace(s[0]) && !IsSpace(s[|s| - 1]))
  }

  /** Drops leading white space: the result is the suffix of `s` that starts
      at its first non-space character. */
  function TrimStart(s: string): (r: string)
    ensures |r| <= |s| && r == s[|s| - |r|..]
    ensures AllSpace(s[..|s| - |r|])
    ensures r == [] || !IsSpace(r[0])
  {
    if s != [] && IsSpace(s[0]) then
      var r := TrimStart(s[1..]);
      assert s[..|s| - |r|] == [s[0]] + s[1..][..|s| - 1 - |r|];
      r
    else s
  }

  /** Drops trailing white space: the result is the prefix of `s` that ends
      at its last non-space character. */
  function TrimEnd(s: string): (r: string)
    ensures |r| <= |s| && r == s[..|r|]
    ensures AllSpace(s[|r|..])
    ensures r == [] || !IsSpace(r[|r| - 1])
  {
    if s != [] && IsSpace(s[|s| - 1]) then
      var r := TrimEnd(s[..|s| - 1]);
      assert s[|r|..] == s[..|s| - 1][|r|..] + [s[|s| - 1]];
      r
    else s
  }

  /** `s.trim()` */
  function Trim(s: string): (r: string)
    ensures Trimmed(r) && |r| <= |s|
  {
    TrimEnd(TrimStart(s))
  }

  lemma {:induction false} TrimStartSkips(a: string, t: string)
    requires AllSpace(a)
    requires t == [] || !IsSpace(t[0])
    ensures TrimStart(a + t) == t
    decreases |a|
  {
    if a != [] {
      assert (a + t)[1..] == a[1..] + t;
      TrimStartSkips(a[1..], t);
    }
  }

  lemma {:induction false} TrimEndSkips(t: string, b: string)
    requires AllSpace(b)
    requires t == [] || !IsSpace(t[|t| - 1])
    ensures TrimEnd(t + b) == t
    decreases |b|
  {
    if b != [] {
      assert (t + b)[..|t + b| - 1] == t + b[..|b| - 1];
      TrimEndSkips(t, b[..|b| - 1]);
    }
  }

  /** Trimming is characterised independently of how it is computed: whatever
      white space surrounds a trimmed core, `trim` returns exactly that core. */
  lemma TrimCharacterised(a: string, m: string, b: string)
    requires AllSpace(a) && AllSpace(b) && Trimmed(m)
    ensures Trim(a + m + b) == m
  {
    if m == [] {
      assert a + m + b == (a + b) + [];
      TrimStartSkips(a + b, []);
    } else {
      assert a + m + b == a + (m + b);
      TrimStartSkips(a, m + b);
      TrimEndSkips(m, b);
    }
  }

  /** Trimming twice is trimming once. */
  lemma TrimIdempotent(s: string)
    ensures Trim(Trim(s)) == Trim(s)
  {
    TrimCharacterised([], Trim(s), []);
    assert [] + Trim(s) + [] == Trim(s);
  }

  /** `pat` occurs in `s` at index `k`. */
  predicate Occurs(pat: string, s: string, k: int) {
    0 <= k && k + |pat| <= |s| && s[k..k + |pat|] == pat
  }

  /** `s.indexOf(pat, from)`, with -1 as `None`: the first occurrence of `pat`
      at or after `from`. */
  function IndexOf(pat: string, s: string, from: nat): (r: Option<nat>)
    ensures r.Some? ==> from <= r.value && Occurs(pat, s, r.value)
    ensures r.Some? ==> forall k :: from <= k < r.value ==> !Occurs(pat, s, k)
    ensures r.None? ==> forall k :: from <= k ==> !Occurs(pat, s, k)
    decreases |s| - from
  {
    if from + |pat| > |s| then None
    else if s[from..from + |pat|] == pat then Some(from)
    else IndexOf(pat, s, from + 1)
  }

  /** `s.startsWith(p)` */
  predicate StartsWith(s: string, p: string) {
    p <= s
  }

  /** `s.replace(pat, rep)` with a string pattern and a replacement that
      contains no `$`: only the first occurrence is replaced, and `s` is
      returned unchanged when `pat` does not occur. */
  function ReplaceFirst(s: string, pat: string, rep: string): (r: string)
    ensures (forall k :: !Occurs(pat, s, k)) ==> r == s
    ensures forall k :: Occurs(pat, s, k) && (forall j :: 0 <= j < k ==> !Occurs(pat, s, j)) ==>
              r == s[..k] + rep + s[k + |pat|..]
  {
    match IndexOf(pat, s, 0)
    case None => s
    case Some(k) => s[..k] + rep + s[k + |pat|..]
  }

  /** Removing a prefix with `replace` strips exactly that prefix. */
  lemma ReplacePrefix(s: string, pat: string)
    requires StartsWith(s, pat)
    ensures ReplaceFirst(s, pat, "") == s[|pat|..]
  {
    assert Occurs(pat, s, 0);
  }

  /** `s.split(sep)` for a one-character separator: always at least one field,
      and no field contains the separator. */
  function Split(s: string, sep: char): (r: seq<string>)
    ensures |r| >= 1
    ensures forall i :: 0 <= i < |r| ==> sep !in r[i]
  {
    if s == [] then [""]
    else
      var rest := Split(s[1..], sep);
      if s[0] == sep then [""] + rest
      else [[s[0]] + rest[0]] + rest[1..]
  }

  /** `fields.join(sep)` */
  function Join(fields: seq<string>, sep: char): string
    requires |fields| >= 1
  {
    if |fields| == 1 then fields[0]
    else fields[0] + [sep] + Join(fields[1..], sep)
  }

  /** Splitting loses nothing: joining the fields back gives the input. */
  lemma {:induction false} JoinSplit(s: string, sep: char)
    ensures Join(Split(s, sep), sep) == s
  {
    if s != [] {
      var rest := Split(s[1..], sep);
      JoinSplit(s[1..], sep);
      if s[0] != sep {
        if |rest| == 1 {
          assert Split(s, sep) == [[s[0]] + rest[0]];
        } else {
          assert Split(s, sep)[1..] == rest[1..];
          assert Join(rest, sep) == rest[0] + [sep] + Join(rest[1..], sep);
        }
      }
    }
  }

  /** Fields without the separator are recovered from their join. */
  lemma {:induction false} SplitJoin(fields: seq<string>, sep: char)
    requires |fields| >= 1
    requires forall i :: 0 <= i < |fields| ==> sep !in fields[i]
    ensures Split(Join(fields, sep), sep) == fields
    decreases |fields|, |fields[0]|
  {
    var f := fields[0];
    if f == [] {
      if |fields| > 1 {
        assert Join(fields, sep) == [sep] + Join(fields[1..], sep);
        assert ([sep] + Join(fields[1..], sep))[1..] == Join(fields[1..], sep);
        SplitJoin(fields[1..], sep);
        assert fields == [""] + fields[1..];
      }
    } else {
      var tail := [f[1..]] + fields[1..];
      assert tail[1..] == fields[1..];
      assert Join(fields, sep) == [f[0]] + Join(tail, sep) by {
        if |fields| > 1 {
          assert Join(tail, sep) == f[1..] + [sep] + Join(fields[1..], sep);
        }
      }
      assert ([f[0]] + Join(tail, sep))[1..] == Join(tail, sep);
      assert f[0] != sep by { assert f[0] in f; }
      assert forall i :: 0 <= i < |tail| ==> sep !in tail[i] by {
        forall i | 0 <= i < |tail| ensures sep !in tail[i] {
          if i == 0 {
            assert forall c :: c in f[1..] ==> c in f;
          } else {
            assert tail[i] == fields[i];
          }
        }
      }
      SplitJoin(tail, sep);
      assert [f[0]] + f[1..] == f;
      assert fields == [f] + fields[1..];
    }
  }

  /** No field before index `i` starts with `prefix`. */
  predicate NoneBefore(fields: seq<string>, prefix: string, i: int)
    requires i <= |fields|
  {
    forall j :: 0 <= j < i ==> !StartsWith(fields[j], prefix)
  }

  /** `fields.find(p => p.startsWith(prefix))`: the first field with the prefix. */
  function FindWithPrefix(fields: seq<string>, prefix: string): (r: Option<string>)
    ensures r.Some? ==> StartsWith(r.value, prefix)
    ensures r.Some? ==> exists i :: 0 <= i < |fields| && fields[i] == r.value && NoneBefore(fields, prefix, i)
    ensures r.None? ==> NoneBefore(fields, prefix, |fields|)
  {
    if fields == [] then None
    else if StartsWith(fields[0], prefix) then
      assert NoneBefore(fields, prefix, 0);
      Some(fields[0])
    else
      var r := FindWithPrefix(fields[1..], prefix);
      assert r.Some? ==> exists i :: 0 <= i < |fields| && fields[i] == r.value && NoneBefore(fields, prefix, i);
      r
  }
}
