/**
 Small shared vocabulary: optional values and results, sums and flattening of
 sequences, Python's `str.strip`, `str.startswith`, `str.join` and decimal
 rendering of integers, all as pure functions over `seq`.
 */
module Common {

  /** A value that may be absent: a dictionary key that is not there, a failed
      decryption, a function that returned `None`. */
  datatype Option<T> = None | Some(value: T)

  /** The outcome of a step that can raise: `Ok` with the value, or `Err`. */
  datatype Result<T, E> = Ok(value: T) | Err(error: E)

  /** Sum of a sequence of integers, folded from the front. */
  function Sum(xs: seq<int>): int
  {
    if |xs| == 0 then 0 else xs[0] + Sum(xs[1..])
  }

  lemma {:induction false} SumAppend(xs: seq<int>, ys: seq<int>)
    ensures Sum(xs + ys) == Sum(xs) + Sum(ys)
  {
    if |xs| == 0 {
      assert xs + ys == ys;
    } else {
      assert (xs + ys)[1..] == xs[1..] + ys;
      SumAppend(xs[1..], ys);
    }
  }

  lemma {:induction false} SumSingle(x: int)
    ensures Sum([x]) == x
  {
    assert [x][1..] == [];
  }

  /** Concatenation of a sequence of sequences, in order. */
  function Flatten<T>(xss: seq<seq<T>>): seq<T>
  {
    if |xss| == 0 then [] else xss[0] + Flatten(xss[1..])
  }

  lemma {:induction false} FlattenAppend<T>(xss: seq<seq<T>>, yss: seq<seq<T>>)
    ensures Flatten(xss + yss) == Flatten(xss) + Flatten(yss)
  {
    if |xss| == 0 {
      assert xss + yss == yss;
    } else {
      assert (xss + yss)[1..] == xss[1..] + yss;
      FlattenAppend(xss[1..], yss);
    }
  }

  function Min(a: int, b: int): int
  {
    if a <= b then a else b
  }

  /** The characters for which Python's `str.isspace()` holds: the ASCII
      controls 9..13 and 28..31, the space, NEL, NBSP and the Unicode space
      separators. */
  predicate IsSpace(c: char)
  {
    || ('\U{9}' <= c <= '\U{D}')
    || ('\U{1C}' <= c <= '\U{20}')
    || c == '\U{85}' || c == '\U{A0}' || c == '\U{1680}'
    || ('\U{2000}' <= c <= '\U{200A}')
    || c == '\U{2028}' || c == '\U{2029}' || c == '\U{202F}'
    || c == '\U{205F}' || c == '\U{3000}'
  }

  /** `s.lstrip()`: `s` without its leading whitespace. */
  function TrimLeft(s: string): string
  {
    if |s| > 0 && IsSpace(s[0]) then TrimLeft(s[1..]) else s
  }

  /** `s.rstrip()`: `s` without its trailing whitespace. */
  function TrimRight(s: string): string
  {
    if |s| > 0 && IsSpace(s[|s| - 1]) then TrimRight(s[..|s| - 1]) else s
  }

  /** `s.strip()`. */
  function Strip(s: string): string
  {
    TrimRight(TrimLeft(s))
  }

  /** `lstrip` drops a run of whitespace from the front and stops at the
      first non-space. */
  lemma {:induction false} TrimLeftFacts(s: string)
    ensures |TrimLeft(s)| <= |s| && TrimLeft(s) == s[|s| - |TrimLeft(s)|..]
    ensures forall k :: 0 <= k < |s| - |TrimLeft(s)| ==> IsSpace(s[k])
    ensures |TrimLeft(s)| == 0 || !IsSpace(TrimLeft(s)[0])
    decreases |s|
  {
    if |s| > 0 && IsSpace(s[0]) {
      TrimLeftFacts(s[1..]);
      var r := TrimLeft(s[1..]);
      assert s[1..][|s| - 1 - |r|..] == s[|s| - |r|..];
      forall k | 0 <= k < |s| - |r| ensures IsSpace(s[k]) {
        if k > 0 {
          assert s[k] == s[1..][k - 1];
        }
      }
    }
  }

  /** `rstrip` drops a run of whitespace from the back and stops at the last
      non-space. */
  lemma {:induction false} TrimRightFacts(s: string)
    ensures |TrimRight(s)| <= |s| && TrimRight(s) == s[..|TrimRight(s)|]
    ensures forall k :: |TrimRight(s)| <= k < |s| ==> IsSpace(s[k])
    ensures |TrimRight(s)| == 0 || !IsSpace(TrimRight(s)[|TrimRight(s)| - 1])
    decreases |s|
  {
    if |s| > 0 && IsSpace(s[|s| - 1]) {
      TrimRightFacts(s[..|s| - 1]);
      var r := TrimRight(s[..|s| - 1]);
      assert s[..|s| - 1][..|r|] == s[..|r|];
      forall k | |r| <= k < |s| ensures IsSpace(s[k]) {
        if k < |s| - 1 {
          assert s[k] == s[..|s| - 1][k];
        }
      }
    }
  }

  /** `strip` keeps a contiguous piece of `s` with no whitespace at either
      end, dropping only whitespace: all of `s` when it holds none, nothing
      when it is all whitespace. */
  lemma {:induction false} StripFacts(s: string)
    ensures |Strip(s)| <= |s|
    ensures |Strip(s)| == 0 || (!IsSpace(Strip(s)[0]) && !IsSpace(Strip(s)[|Strip(s)| - 1]))
    ensures (forall k :: 0 <= k < |s| ==> !IsSpace(s[k])) ==> Strip(s) == s
    ensures (forall k :: 0 <= k < |s| ==> IsSpace(s[k])) ==> Strip(s) == ""
  {
    var l := TrimLeft(s);
    TrimLeftFacts(s);
    TrimRightFacts(l);
    var r := TrimRight(l);
    assert |r| > 0 ==> r[0] == l[0];
  }

  /** `s.startswith(prefix)`. */
  predicate StartsWith(s: string, prefix: string)
  {
    |prefix| <= |s| && s[..|prefix|] == prefix
  }

  /** `sep.join(xs)`. */
  function Join(sep: string, xs: seq<string>): (r: string)
    ensures |xs| == 0 ==> r == ""
    ensures |xs| == 1 ==> r == xs[0]
    ensures |xs| > 0 ==> |r| == Sum(Lengths(xs)) + |sep| * (|xs| - 1)
    ensures |xs| > 0 ==> StartsWith(r, xs[0])
  {
    if |xs| == 0 then ""
    else if |xs| == 1 then xs[0]
    else xs[0] + sep + Join(sep, xs[1..])
  }

  /** The lengths of the strings of `xs`, in order. */
  function Lengths(xs: seq<string>): (r: seq<int>)
    ensures |r| == |xs|
  {
    if |xs| == 0 then [] else [|xs[0]|] + Lengths(xs[1..])
  }

  predicate IsDigit(c: char)
  {
    '0' <= c <= '9'
  }

  /** The number a string of decimal digits denotes. */
  function DigitsValue(s: string): nat
    requires forall k :: 0 <= k < |s| ==> IsDigit(s[k])
  {
    if |s| == 0 then 0
    else
      assert IsDigit(s[|s| - 1]);
      DigitsValue(s[..|s| - 1]) * 10 + (s[|s| - 1] as int - '0' as int)
  }

  /** Python's `str(n)` for a natural number: shortest decimal digits. */
  function NatToString(n: nat): string
  {
    var d := [('0' as int + n % 10) as char];
    if n < 10 then d else NatToString(n / 10) + d
  }

  /** `str(n)` is a non-empty string of decimal digits without a leading
      zero (unless `n` is zero) that denotes `n`. */
  lemma {:induction false} NatToStringFacts(n: nat)
    ensures var r := NatToString(n);
      && |r| > 0
      && (forall k :: 0 <= k < |r| ==> IsDigit(r[k]))
      && (r[0] != '0' || n == 0)
      && DigitsValue(r) == n
  {
    var d := [('0' as int + n % 10) as char];
    if n >= 10 {
      var p := NatToString(n / 10);
      NatToStringFacts(n / 10);
      assert NatToString(n) == p + d;
      assert (p + d)[..|p + d| - 1] == p;
    }
  }

  /** Python's `str(n)` for any integer: a minus sign before the digits of
      `|n|` when `n` is negative. */
  function IntToString(n: int): string
  {
    if n >= 0 then NatToString(n) else "-" + NatToString(-n)
  }

  /** `str(n)` starts with a minus sign exactly when `n` is negative. */
  lemma {:induction false} IntToStringSign(n: int)
    ensures |IntToString(n)| > 0 && (IntToString(n)[0] == '-' <==> n < 0)
  {
    NatToStringFacts(if n >= 0 then n else -n);
  }
}
