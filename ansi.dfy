/**
 * The vocabulary of terminal escape sequences the renderer writes, the
 * decimal numerals it embeds in them, and the text a terminal shows for a
 * string once its control sequences are taken out.
 *
 * Every sequence the renderer writes is a control sequence `ESC [ params
 * final`, with `params` made of digits and `;` and a final character that is
 * neither (`m` to select graphic rendition, `K` to erase in line).
 */
module Ansi {

  const Esc: char := '\U{1B}'

  predicate IsParam(c: char)
  {
    '0' <= c <= '9' || c == ';'
  }

  predicate IsParams(s: string)
  {
    forall i :: 0 <= i < |s| ==> IsParam(s[i])
  }

  /** The string has no escape character in it: plain text. */
  predicate NoEsc(s: string)
  {
    forall i :: 0 <= i < |s| ==> s[i] != Esc
  }

  lemma NoEscJoin(a: string, b: string)
    requires NoEsc(a) && NoEsc(b)
    ensures NoEsc(a + b)
  {
    forall i | 0 <= i < |a + b| ensures (a + b)[i] != Esc {
      if i >= |a| {
        assert (a + b)[i] == b[i - |a|];
      }
    }
  }

  /** The control sequence `ESC [ params final`. */
  function Csi(params: string, final: char): string
  {
    [Esc, '['] + params + [final]
  }

  /** Selects graphic rendition: `ESC [ params m`. */
  function Sgr(params: string): string
  {
    Csi(params, 'm')
  }

  // ---------------------------------------------------------------------------
  // Decimal numerals, as Rust's `{}` formats an unsigned integer

  function Digit(d: nat): (c: char)
    requires d < 10
    ensures '0' <= c <= '9' && c as int - '0' as int == d
  {
    ('0' as int + d) as char
  }

  /** The decimal numeral of `n`, most significant digit first, without leading zeros. */
  function Decimal(n: nat): (s: string)
    ensures 1 <= |s|
    ensures forall i :: 0 <= i < |s| ==> '0' <= s[i] <= '9'
    ensures |s| > 1 ==> s[0] != '0'
  {
    if n < 10 then [Digit(n)] else Decimal(n / 10) + [Digit(n % 10)]
  }

  /** The value of a string of decimal digits. */
  function DecimalValue(s: string): nat
    requires forall i :: 0 <= i < |s| ==> '0' <= s[i] <= '9'
  {
    if s == [] then 0
    else DecimalValue(s[..|s| - 1]) * 10 + (s[|s| - 1] as int - '0' as int)
  }

  lemma {:induction false} DecimalRoundTrip(n: nat)
    ensures DecimalValue(Decimal(n)) == n
  {
    if n >= 10 {
      DecimalRoundTrip(n / 10);
      var s := Decimal(n);
      assert s[..|s| - 1] == Decimal(n / 10);
    }
  }

  /** Different numbers are written differently. */
  lemma DecimalInjective(m: nat, n: nat)
    requires Decimal(m) == Decimal(n)
    ensures m == n
  {
    DecimalRoundTrip(m);
    DecimalRoundTrip(n);
  }

  lemma DecimalIsParams(n: nat)
    ensures IsParams(Decimal(n)) && NoEsc(Decimal(n))
  {
  }

  // ---------------------------------------------------------------------------
  // What a terminal shows

  /** The length of the run of parameter characters at the start of `s`. */
  function ParamRun(s: string): (n: nat)
    ensures n <= |s|
  {
    if s != [] && IsParam(s[0]) then 1 + ParamRun(s[1..]) else 0
  }

  /** `s` opens with a complete control sequence. */
  predicate StartsWithCsi(s: string)
  {
    |s| >= 2 && s[0] == Esc && s[1] == '[' && 2 + ParamRun(s[2..]) < |s|
  }

  /** The length of the control sequence `s` opens with. */
  function CsiLength(s: string): (n: nat)
    requires StartsWithCsi(s)
    ensures 3 <= n <= |s|
  {
    3 + ParamRun(s[2..])
  }

  /** The characters a terminal prints for `s`: `s` without its complete control sequences. */
  function Visible(s: string): string
    decreases |s|
  {
    if s == [] then []
    else if StartsWithCsi(s) then Visible(s[CsiLength(s)..])
    else [s[0]] + Visible(s[1..])
  }

  /** Every escape character in `s` starts a control sequence that ends inside `s`. */
  predicate Complete(s: string)
    decreases |s|
  {
    if s == [] then true
    else if StartsWithCsi(s) then Complete(s[CsiLength(s)..])
    else s[0] != Esc && Complete(s[1..])
  }

  lemma {:induction false} ParamRunAppend(x: string, z: string)
    requires ParamRun(x) < |x|
    ensures ParamRun(x + z) == ParamRun(x)
  {
    if IsParam(x[0]) {
      assert (x + z)[1..] == x[1..] + z;
      ParamRunAppend(x[1..], z);
    }
  }

  lemma ParamRunOfParams(p: string, f: char, z: string)
    requires IsParams(p) && !IsParam(f)
    ensures ParamRun(p + [f] + z) == |p|
    decreases |p|
  {
    if p != [] {
      assert (p + [f] + z)[1..] == p[1..] + [f] + z;
      ParamRunOfParams(p[1..], f, z);
    }
  }

  /** A control sequence at the start of `a` is still the one at the start of `a + b`. */
  lemma CsiPrefix(a: string, b: string)
    requires StartsWithCsi(a)
    ensures StartsWithCsi(a + b) && CsiLength(a + b) == CsiLength(a)
    ensures (a + b)[CsiLength(a)..] == a[CsiLength(a)..] + b
  {
    ParamRunAppend(a[2..], b);
    assert (a + b)[2..] == a[2..] + b;
  }

  /** A first character other than the escape character is shown as it is, in `a` and in `a + b`. */
  lemma PlainPrefix(a: string, b: string)
    requires a != [] && a[0] != Esc
    ensures !StartsWithCsi(a + b) && (a + b)[0] == a[0]
    ensures (a + b)[1..] == a[1..] + b
  {
  }

  /** A complete prefix is shown on its own: what follows it does not change how it reads. */
  lemma {:induction false} VisibleAppend(a: string, b: string)
    requires Complete(a)
    ensures Visible(a + b) == Visible(a) + Visible(b)
    decreases |a|
  {
    if a == [] {
      assert a + b == b;
    } else if StartsWithCsi(a) {
      var n := CsiLength(a);
      CsiPrefix(a, b);
      VisibleAppend(a[n..], b);
    } else {
      PlainPrefix(a, b);
      VisibleAppend(a[1..], b);
    }
  }

  lemma {:induction false} CompleteAppend(a: string, b: string)
    requires Complete(a) && Complete(b)
    ensures Complete(a + b)
    decreases |a|
  {
    if a == [] {
      assert a + b == b;
    } else if StartsWithCsi(a) {
      var n := CsiLength(a);
      CsiPrefix(a, b);
      CompleteAppend(a[n..], b);
    } else {
      PlainPrefix(a, b);
      CompleteAppend(a[1..], b);
    }
  }

  /** A control sequence shows nothing and is complete. */
  lemma CsiInvisible(params: string, final: char)
    requires IsParams(params) && !IsParam(final)
    ensures Complete(Csi(params, final)) && Visible(Csi(params, final)) == []
  {
    var s := Csi(params, final);
    assert s[2..] == params + [final] + [];
    ParamRunOfParams(params, final, []);
    assert StartsWithCsi(s) && CsiLength(s) == |s|;
    assert s[|s|..] == [];
  }

  /** Plain text shows as itself and is complete. */
  lemma {:induction false} PlainVisible(t: string)
    ensures NoEsc(t) ==> Complete(t) && Visible(t) == t
    decreases |t|
  {
    if t != [] && NoEsc(t) {
      PlainVisible(t[1..]);
    }
  }

  /** Two complete strings joined are complete, and read as the one after the other. */
  lemma Join(a: string, b: string)
    requires Complete(a) && Complete(b)
    ensures Complete(a + b) && Visible(a + b) == Visible(a) + Visible(b)
  {
    CompleteAppend(a, b);
    VisibleAppend(a, b);
  }

  /** Wrapping plain text in two control sequences leaves what is shown unchanged. */
  lemma Wrapped(open: string, t: string, close: string)
    requires IsParams(open) && IsParams(close)
    ensures NoEsc(t) ==> Complete(Sgr(open) + t + Sgr(close))
    ensures NoEsc(t) ==> Visible(Sgr(open) + t + Sgr(close)) == t
  {
    if NoEsc(t) {
      CsiInvisible(open, 'm');
      CsiInvisible(close, 'm');
      PlainVisible(t);
      Join(Sgr(open), t);
      Join(Sgr(open) + t, Sgr(close));
    }
  }
}
