/** The few operations on Python `str` that the generator relies on, with
    Python's semantics: `sep.join(parts)`, `s.strip(c)`, the slice `s[:-k]`,
    `str(n)` for a non-negative int, and `s.split(c)` (used only to state
    that a joined list can be taken apart again). */
module PyStrings {

  /** `sep.join(parts)`: the parts with `sep` between neighbours. */
  function Join(sep: string, parts: seq<string>): string
  {
    if |parts| == 0 then ""
    else if |parts| == 1 then parts[0]
    else Join(sep, parts[..|parts| - 1]) + sep + parts[|parts| - 1]
  }

  /** Every part followed by `t`: what a loop doing `acc += p + t` builds. */
  function Terminated(parts: seq<string>, t: string): string
  {
    if parts == [] then ""
    else Terminated(parts[..|parts| - 1], t) + parts[|parts| - 1] + t
  }

  /** `s.lstrip(c)`: drops every leading `c`. */
  function LStrip(s: string, c: char): (r: string)
    ensures |r| <= |s| && r == s[|s| - |r|..]
    ensures r == [] || r[0] != c
    ensures forall i :: 0 <= i < |s| - |r| ==> s[i] == c
  {
    if |s| > 0 && s[0] == c then LStrip(s[1..], c) else s
  }

  /** `s.rstrip(c)`: drops every trailing `c`. */
  function RStrip(s: string, c: char): (r: string)
    ensures |r| <= |s| && r == s[..|r|]
    ensures r == [] || r[|r| - 1] != c
    ensures forall i :: |r| <= i < |s| ==> s[i] == c
  {
    if |s| > 0 && s[|s| - 1] == c then RStrip(s[..|s| - 1], c) else s
  }

  /** `s.strip(c)`: drops every leading and every trailing `c`. */
  function Strip(s: string, c: char): string
  {
    RStrip(LStrip(s, c), c)
  }

  /** The slice `s[:-k]` for `k > 0`: all but the last `k` characters, and
      the empty string when `s` is shorter than `k`. */
  function DropLast(s: string, k: nat): (r: string)
    requires k > 0
    ensures |r| == if |s| >= k then |s| - k else 0
    ensures r == s[..|r|]
  {
    if |s| >= k then s[..|s| - k] else ""
  }

  /** Index of the first `c` in `s` (`s.index(c)`). */
  function IndexOf(s: string, c: char): (i: nat)
    requires c in s
    ensures i < |s| && s[i] == c && c !in s[..i]
  {
    if s[0] == c then 0
    else
      assert c in s[1..] by { assert s == [s[0]] + s[1..]; }
      var j := IndexOf(s[1..], c);
      assert s[..j + 1] == [s[0]] + s[1..][..j];
      j + 1
  }

  /** `s.split(c)`: the pieces between the occurrences of `c`; always at
      least one piece (`"".split(",") == [""]`). */
  function Split(s: string, c: char): (parts: seq<string>)
    decreases |s|
  {
    if c !in s then [s]
    else
      var i := IndexOf(s, c);
      [s[..i]] + Split(s[i + 1..], c)
  }

  /** The character of a decimal digit. */
  function DigitChar(d: nat): char
    requires d < 10
  {
    (48 + d) as char
  }

  predicate IsDigit(ch: char)
  {
    '0' <= ch <= '9'
  }

  predicate AllDigits(s: string)
  {
    forall i :: 0 <= i < |s| ==> IsDigit(s[i])
  }

  /** `str(n)` for `n >= 0`: decimal digits, most significant first, with no
      padding. */
  function Str(n: nat): (r: string)
    ensures |r| > 0 && AllDigits(r)
    decreases n
  {
    if n < 10 then [DigitChar(n)] else Str(n / 10) + [DigitChar(n % 10)]
  }

  /** `int(s)` for a string of decimal digits: the inverse of `Str`. Unlike
      Python's `int("")`, which raises `ValueError`, it reads `""` as 0; `Str`
      never yields `""`, so the round trip is unaffected. */
  function ParseDecimal(s: string): nat
    requires AllDigits(s)
  {
    if s == [] then 0
    else ParseDecimal(s[..|s| - 1]) * 10 + (s[|s| - 1] as int - 48)
  }

  // ---------------------------------------------------------------------
  // Lemmas

  /** Concatenation is associative; stated once so that long proofs can
      regroup text without comparing it character by character. */
  lemma Assoc<T>(a: seq<T>, b: seq<T>, c: seq<T>)
    ensures (a + b) + c == a + (b + c)
  {
  }

  /** A run of parts each followed by `sep` is their join plus one `sep`. */
  lemma {:induction false} TerminatedIsJoinThenSep(parts: seq<string>, sep: string)
    requires |parts| > 0
    ensures Terminated(parts, sep) == Join(sep, parts) + sep
  {
    if |parts| > 1 {
      var init := parts[..|parts| - 1];
      TerminatedIsJoinThenSep(init, sep);
    }
  }

  /** Appending one part to a run of terminated parts. */
  lemma TerminatedSnoc(parts: seq<string>, p: string, t: string)
    ensures Terminated(parts + [p], t) == Terminated(parts, t) + p + t
  {
    assert (parts + [p])[..|parts|] == parts;
  }

  /** Terminated runs concatenate. */
  lemma {:induction false} TerminatedAppend(a: seq<string>, b: seq<string>, t: string)
    ensures Terminated(a + b, t) == Terminated(a, t) + Terminated(b, t)
    decreases |b|
  {
    if b == [] {
      assert a + b == a;
    } else {
      var init := b[..|b| - 1];
      var last := b[|b| - 1];
      assert b == init + [last];
      assert a + b == (a + init) + [last];
      TerminatedSnoc(a + init, last, t);
      TerminatedSnoc(init, last, t);
      TerminatedAppend(a, init, t);
      var ta, ti := Terminated(a, t), Terminated(init, t);
      Assoc(ta, ti, last);
      Assoc(ta, ti + last, t);
    }
  }

  /** The join of non-empty parts begins with the first part's first
      character and ends with the last part's last character. */
  lemma {:induction false} JoinEnds(sep: string, parts: seq<string>)
    requires |parts| > 0
    requires forall p :: p in parts ==> |p| > 0
    ensures var j := Join(sep, parts);
      |j| > 0 && j[0] == parts[0][0] && j[|j| - 1] == parts[|parts| - 1][|parts[|parts| - 1]| - 1]
  {
    if |parts| > 1 {
      var init := parts[..|parts| - 1];
      assert forall p :: p in init ==> p in parts;
      JoinEnds(sep, init);
      assert init[0] == parts[0];
    }
  }

  /** Stripping `c` from parts-each-followed-by-`c` gives their join by
      `c`, provided no part begins or ends with `c`. */
  lemma StripTerminated(parts: seq<string>, c: char)
    requires forall p :: p in parts ==> |p| > 0 && p[0] != c && p[|p| - 1] != c
    ensures Strip(Terminated(parts, [c]), c) == Join([c], parts)
  {
    if parts != [] {
      TerminatedIsJoinThenSep(parts, [c]);
      JoinEnds([c], parts);
      var j := Join([c], parts);
      var s := j + [c];
      assert LStrip(s, c) == s;
      assert s[..|s| - 1] == j;
      assert RStrip(s, c) == RStrip(j, c);
    }
  }

  /** Prepending a part to a join. */
  lemma {:induction false} JoinCons(sep: string, p: string, rest: seq<string>)
    requires |rest| > 0
    ensures Join(sep, [p] + rest) == p + sep + Join(sep, rest)
    decreases |rest|
  {
    var all := [p] + rest;
    if |rest| > 1 {
      var init := rest[..|rest| - 1];
      assert all[..|all| - 1] == [p] + init;
      JoinCons(sep, p, init);
    } else {
      assert all[..|all| - 1] == [p];
    }
  }

  /** Joining by `c` and splitting at `c` gives the parts back, provided
      there is at least one part and no part contains `c`. */
  lemma {:induction false} SplitJoin(parts: seq<string>, c: char)
    requires |parts| > 0
    requires forall p :: p in parts ==> c !in p
    ensures Split(Join([c], parts), c) == parts
  {
    if |parts| == 1 {
      assert Join([c], parts) == parts[0];
    } else {
      var p := parts[0];
      var rest := parts[1..];
      assert parts == [p] + rest;
      JoinCons([c], p, rest);
      var s := Join([c], parts);
      assert s == p + [c] + Join([c], rest);
      assert s[|p|] == c;
      assert c in s;
      var i := IndexOf(s, c);
      assert s[..|p|] == p;
      forall j | 0 <= j < |p| ensures s[j] != c {
        assert s[j] == p[j] && p[j] in p;
        assert p in parts;
      }
      forall j | 0 <= j < i ensures s[j] != c {
        assert s[..i][j] == s[j];
      }
      assert i == |p|;
      assert s[i + 1..] == Join([c], rest);
      assert forall q :: q in rest ==> q in parts;
      SplitJoin(rest, c);
    }
  }

  /** `Str` yields digits only and `ParseDecimal` reads `n` back from it. */
  lemma {:induction false} StrRoundTrip(n: nat)
    ensures AllDigits(Str(n)) && ParseDecimal(Str(n)) == n
    decreases n
  {
    if n >= 10 {
      StrRoundTrip(n / 10);
      var s := Str(n);
      assert s[..|s| - 1] == Str(n / 10);
    }
  }

  /** `Str` is unpadded: it is never empty and begins with `0` only for zero. */
  lemma {:induction false} StrUnpadded(n: nat)
    ensures |Str(n)| > 0 && (Str(n)[0] == '0' <==> n == 0)
    decreases n
  {
    if n >= 10 {
      StrUnpadded(n / 10);
    }
  }
}
