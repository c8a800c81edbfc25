/** The pure helpers of the intake form: unit conversion, the body-mass
    index and its band, and the report file name. */
module Intake {
  import opened Base
  import opened Text
  import opened Encoder

  /** `cm_para_metros`. */
  function CmToMetres(cm: real): (m: real)
    ensures m * 100.0 == cm
    ensures cm > 0.0 ==> m > 0.0
  {
    cm / 100.0
  }

  /** `calcular_imc` before its rounding to one decimal: present exactly when
      the weight is non-zero and the height positive, and then the weight
      over the height in metres squared. */
  function CalcBmi(peso: real, alturaCm: real): (imc: Option<real>)
    ensures imc.Some? <==> peso != 0.0 && alturaCm > 0.0
    ensures imc.Some? ==> imc.value * (CmToMetres(alturaCm) * CmToMetres(alturaCm)) == peso
  {
    if peso != 0.0 && alturaCm != 0.0 && alturaCm > 0.0 then
      Some(BodyMassIndex(peso, CmToMetres(alturaCm)))
    else
      None
  }

  /** The cut points of the bands and their labels, lowest first. */
  const BmiCuts: seq<real> := [18.5, 25.0, 30.0, 35.0, 40.0]
  const BmiBands: seq<string> := ["Baixo peso", "Eutrofia", "Sobrepeso", "Obesidade I", "Obesidade II", "Obesidade III"]

  /** `classificar_imc`: "" for an absent or zero index, otherwise the band. */
  function ClassifyBmi(imc: Option<real>): (band: string)
    ensures band == "" <==> imc.None? || imc.value == 0.0
  {
    match imc
    case None => ""
    case Some(x) =>
      if x == 0.0 then ""
      else if x < 18.5 then "Baixo peso"
      else if x < 25.0 then "Eutrofia"
      else if x < 30.0 then "Sobrepeso"
      else if x < 35.0 then "Obesidade I"
      else if x < 40.0 then "Obesidade II"
      else "Obesidade III"
  }

  /** How many of `cuts` lie at or below `x`. */
  function CutsBelow(cuts: seq<real>, x: real): (n: nat)
    ensures n <= |cuts|
  {
    if cuts == [] then 0
    else (if cuts[0] <= x then 1 else 0) + CutsBelow(cuts[1..], x)
  }

  /** The band of a non-zero index is the label indexed by the number of
      cut points at or below it. */
  lemma ClassifyByCutCount(x: real)
    requires x != 0.0
    ensures ClassifyBmi(Some(x)) == BmiBands[CutsBelow(BmiCuts, x)]
  {
    assert CutsBelow([40.0], x) == (if 40.0 <= x then 1 else 0) by {
      assert [40.0][1..] == [];
    }
    assert CutsBelow([35.0, 40.0], x) == (if 35.0 <= x then 1 else 0) + CutsBelow([40.0], x) by {
      assert [35.0, 40.0][1..] == [40.0];
    }
    assert CutsBelow([30.0, 35.0, 40.0], x) == (if 30.0 <= x then 1 else 0) + CutsBelow([35.0, 40.0], x) by {
      assert [30.0, 35.0, 40.0][1..] == [35.0, 40.0];
    }
    assert CutsBelow([25.0, 30.0, 35.0, 40.0], x) == (if 25.0 <= x then 1 else 0) + CutsBelow([30.0, 35.0, 40.0], x) by {
      assert [25.0, 30.0, 35.0, 40.0][1..] == [30.0, 35.0, 40.0];
    }
    assert BmiCuts[1..] == [25.0, 30.0, 35.0, 40.0];
  }

  /** Raising the input never lowers the band. */
  lemma {:induction false} CutsBelowMonotone(cuts: seq<real>, x: real, y: real)
    requires x <= y
    ensures CutsBelow(cuts, x) <= CutsBelow(cuts, y)
    decreases |cuts|
  {
    if cuts != [] {
      CutsBelowMonotone(cuts[1..], x, y);
    }
  }

  /** A sorted list of cut points splits the line into half-open bands:
      `x` has band `k` exactly when it lies in `[cuts[k-1], cuts[k])`. */
  lemma {:induction false} CutsBelowHalfOpen(cuts: seq<real>, x: real, k: nat)
    requires forall i, j :: 0 <= i < j < |cuts| ==> cuts[i] < cuts[j]
    requires k <= |cuts|
    ensures CutsBelow(cuts, x) == k <==>
              (k == 0 || cuts[k - 1] <= x) && (k == |cuts| || x < cuts[k])
    decreases |cuts|
  {
    if cuts != [] {
      if cuts[0] <= x {
        if k > 0 {
          CutsBelowHalfOpen(cuts[1..], x, k - 1);
        } else {
          CutsBelowHalfOpen(cuts[1..], x, 0);
        }
      } else {
        CutsBelowNone(cuts, x);
      }
    }
  }

  /** The form's cut points increase strictly. */
  lemma BmiCutsIncrease()
    ensures forall i, j :: 0 <= i < j < |BmiCuts| ==> BmiCuts[i] < BmiCuts[j]
  {
  }

  /** The bands of `ClassifyBmi` are the half-open intervals between
      consecutive cut points: band `k` holds exactly the non-zero indices in
      `[BmiCuts[k-1], BmiCuts[k])`, open below the first cut and above the
      last. */
  lemma BmiBandIntervals(x: real, k: nat)
    requires x != 0.0 && k < |BmiBands|
    ensures ClassifyBmi(Some(x)) == BmiBands[k] <==>
              (k == 0 || BmiCuts[k - 1] <= x) && (k == |BmiCuts| || x < BmiCuts[k])
  {
    BmiCutsIncrease();
    ClassifyByCutCount(x);
    CutsBelowHalfOpen(BmiCuts, x, k);
    var n := CutsBelow(BmiCuts, x);
    assert forall i, j :: 0 <= i < j < |BmiBands| ==> BmiBands[i] != BmiBands[j];
    assert BmiBands[n] == BmiBands[k] <==> n == k;
  }

  /** Below the lowest of sorted cut points, none counts. */
  lemma {:induction false} CutsBelowNone(cuts: seq<real>, x: real)
    requires forall i, j :: 0 <= i < j < |cuts| ==> cuts[i] < cuts[j]
    requires cuts != [] ==> x < cuts[0]
    ensures CutsBelow(cuts, x) == 0
    decreases |cuts|
  {
    if cuts != [] {
      if |cuts| > 1 {
        assert cuts[0] < cuts[1];
      }
      CutsBelowNone(cuts[1..], x);
    }
  }

  /** The bands: total (every non-zero index has one of the six labels),
      disjoint (one label per index) and monotone. */
  lemma BandsAreOrdered(x: real, y: real)
    requires x != 0.0 && y != 0.0 && x <= y
    ensures ClassifyBmi(Some(x)) in BmiBands
    ensures CutsBelow(BmiCuts, x) <= CutsBelow(BmiCuts, y)
    ensures ClassifyBmi(Some(x)) == BmiBands[CutsBelow(BmiCuts, x)]
    ensures ClassifyBmi(Some(y)) == BmiBands[CutsBelow(BmiCuts, y)]
  {
    ClassifyByCutCount(x);
    ClassifyByCutCount(y);
    CutsBelowMonotone(BmiCuts, x, y);
  }

  /** The characters `formatar_nome_arquivo` keeps. */
  predicate KeptInName(c: char) {
    IsAlnum(c) || c == ' ' || c == '-' || c == '_'
  }

  /** The kept characters of `s`, in order. */
  function Keep(s: string): (kept: string)
    ensures |kept| <= |s|
    ensures forall i :: 0 <= i < |kept| ==> KeptInName(kept[i])
    ensures forall c :: c in kept <==> c in s && KeptInName(c)
  {
    if s == [] then []
    else
      assert forall c :: c in s <==> c == s[0] || c in s[1..];
      (if KeptInName(s[0]) then [s[0]] else []) + Keep(s[1..])
  }

  lemma {:induction false} KeepAppend(a: string, b: string)
    ensures Keep(a + b) == Keep(a) + Keep(b)
    decreases |a|
  {
    if a == [] {
      assert a + b == b;
    } else {
      assert (a + b)[0] == a[0];
      assert (a + b)[1..] == a[1..] + b;
      KeepAppend(a[1..], b);
    }
  }

  /** A string of kept characters keeps them all. */
  lemma {:induction false} KeepAllKept(s: string)
    requires forall i :: 0 <= i < |s| ==> KeptInName(s[i])
    ensures Keep(s) == s
    decreases |s|
  {
    if s != [] {
      KeepAllKept(s[1..]);
    }
  }

  /** Spaces replaced by underscores. */
  function Underscored(s: string): (r: string)
    ensures |r| == |s|
    ensures forall i :: 0 <= i < |s| ==> r[i] == (if s[i] == ' ' then '_' else s[i])
  {
    seq(|s|, i requires 0 <= i < |s| => if s[i] == ' ' then '_' else s[i])
  }

  /** The cleaned name of `formatar_nome_arquivo`: only letters, digits,
      '-' and '_' remain, and it is never longer than the input. */
  function CleanName(nome: string): (clean: string)
    ensures |clean| <= |nome|
    ensures forall i :: 0 <= i < |clean| ==> IsAlnum(clean[i]) || clean[i] == '-' || clean[i] == '_'
  {
    var kept := Keep(nome);
    var trimmed := RStrip(kept, IsSpace);
    assert forall i :: 0 <= i < |trimmed| ==> trimmed[i] == kept[i];
    Underscored(trimmed)
  }

  /** The kept characters of whitespace are whitespace. */
  lemma KeepOfSpace(pad: string)
    requires All(pad, IsSpace)
    ensures All(Keep(pad), IsSpace)
  {
    var kp := Keep(pad);
    forall i | 0 <= i < |kp|
      ensures IsSpace(kp[i])
    {
      assert kp[i] in pad;
    }
  }

  /** Trailing whitespace is dropped before the replacement, so it never
      turns into underscores. */
  lemma CleanNameIgnoresTrailingSpace(nome: string, pad: string)
    requires All(pad, IsSpace)
    ensures CleanName(nome + pad) == CleanName(nome)
  {
    KeepAppend(nome, pad);
    KeepOfSpace(pad);
    RStripIgnoresTrailingSpace(Keep(nome), Keep(pad), IsSpace);
  }

  /** A cleaned name contains no whitespace. */
  lemma CleanNameHasNoSpace(c: string)
    requires forall i :: 0 <= i < |c| ==> IsAlnum(c[i]) || c[i] == '-' || c[i] == '_'
    ensures forall i :: 0 <= i < |c| ==> KeptInName(c[i]) && !IsSpace(c[i])
  {
    forall i | 0 <= i < |c|
      ensures KeptInName(c[i]) && !IsSpace(c[i])
    {
      if IsAlnum(c[i]) {
        AlnumIsNotSpace(c[i]);
      }
    }
  }

  /** Cleaning a cleaned name changes nothing. */
  lemma CleanNameIdempotent(nome: string)
    ensures CleanName(CleanName(nome)) == CleanName(nome)
  {
    var c := CleanName(nome);
    CleanNameHasNoSpace(c);
    KeepAllKept(c);
    assert c + [] == c;
    RStripPadded(c, [], IsSpace);
    assert Underscored(c) == c;
  }

  /** A name made only of kept characters, not ending in a space, survives
      whole, each space turned into '_'. */
  lemma CleanNameOfKeptName(nome: string)
    requires forall i :: 0 <= i < |nome| ==> KeptInName(nome[i])
    requires nome == [] || nome[|nome| - 1] != ' '
    ensures CleanName(nome) == Underscored(nome)
  {
    KeepAllKept(nome);
    if nome != [] {
      var c := nome[|nome| - 1];
      if IsAlnum(c) {
        AlnumIsNotSpace(c);
      }
    }
    assert nome + [] == nome;
    RStripPadded(nome, [], IsSpace);
  }

  /** A character the filter does not keep leaves no trace, wherever it
      stands in the name. */
  lemma CleanNameDropsUnkept(a: string, c: char, b: string)
    requires !KeptInName(c)
    ensures CleanName(a + [c] + b) == CleanName(a + b)
  {
    KeepDropsUnkept(a, c, b);
  }

  lemma KeepDropsUnkept(a: string, c: char, b: string)
    requires !KeptInName(c)
    ensures Keep(a + [c] + b) == Keep(a + b)
  {
    KeepOfUnkept(c);
    KeepAppend(a, [c]);
    assert Keep(a + [c]) == Keep(a);
    KeepAppend(a + [c], b);
    KeepAppend(a, b);
  }

  lemma KeepOfUnkept(c: char)
    requires !KeptInName(c)
    ensures Keep([c]) == []
  {
    assert [c][1..] == [];
  }

  /** A calendar date as the form's date picker returns it. */
  datatype Date = Date(year: int, month: int, day: int)

  /** The dates whose `%Y%m%d` rendering has eight digits. */
  predicate FourDigitYear(d: Date) {
    1000 <= d.year <= 9999 && 1 <= d.month <= 12 && 1 <= d.day <= 31
  }

  function Pow10(w: nat): (p: nat)
    ensures p > 0
  {
    if w == 0 then 1 else 10 * Pow10(w - 1)
  }

  /** `n` in `w` decimal digits, zero-padded, most significant first. */
  function Pad(n: nat, w: nat): (s: string)
    ensures |s| == w
    ensures forall i :: 0 <= i < |s| ==> '0' <= s[i] <= '9'
  {
    if w == 0 then []
    else Pad(n / 10, w - 1) + [('0' as int + n % 10) as char]
  }

  /** The number a string of decimal digits denotes (each character read as
      its offset from '0'). */
  function ReadDigits(s: string): int
  {
    if s == [] then 0
    else 10 * ReadDigits(s[..|s| - 1]) + (s[|s| - 1] as int - '0' as int)
  }

  /** Padding to `w` digits loses nothing below `10^w`. */
  lemma {:induction false} PadRoundTrip(n: nat, w: nat)
    requires n < Pow10(w)
    ensures ReadDigits(Pad(n, w)) == n
  {
    if w > 0 {
      var s := Pad(n, w);
      assert s[..|s| - 1] == Pad(n / 10, w - 1);
      PadRoundTrip(n / 10, w - 1);
    }
  }

  /** `strftime("%Y%m%d")`. */
  function DateStamp(d: Date): (s: string)
    requires FourDigitYear(d)
    ensures |s| == 8
  {
    Pad(d.year, 4) + Pad(d.month, 2) + Pad(d.day, 2)
  }

  /** `formatar_nome_arquivo`. */
  function FileName(nome: string, d: Date): (f: string)
    requires FourDigitYear(d)
    ensures |f| == |CleanName(nome)| + 22
  {
    "consulta_" + CleanName(nome) + "_" + DateStamp(d) + ".pdf"
  }

  /** Where each part of a stamped file name lies. */
  lemma StampedNameSlices(c: string, y: string, m: string, dd: string)
    requires |y| == 4 && |m| == 2 && |dd| == 2
    ensures var f := "consulta_" + c + "_" + y + m + dd + ".pdf";
            var n := |f|;
            && n == |c| + 22
            && f[..9] == "consulta_" && f[n - 4..] == ".pdf" && f[n - 13] == '_'
            && f[9..n - 13] == c
            && f[n - 12..n - 8] == y && f[n - 8..n - 6] == m && f[n - 6..n - 4] == dd
  {
  }

  /** A name stamped with a date reads back to that name and date, whatever
      the name. */
  lemma StampedNameReadsBack(c: string, d: Date)
    requires FourDigitYear(d)
    ensures var f := "consulta_" + c + "_" + DateStamp(d) + ".pdf";
            var n := |f|;
            && n == |c| + 22
            && f[..9] == "consulta_" && f[n - 4..] == ".pdf" && f[n - 13] == '_'
            && f[9..n - 13] == c
            && ReadDigits(f[n - 12..n - 8]) == d.year
            && ReadDigits(f[n - 8..n - 6]) == d.month
            && ReadDigits(f[n - 6..n - 4]) == d.day
  {
    var y, m, dd := Pad(d.year, 4), Pad(d.month, 2), Pad(d.day, 2);
    assert "consulta_" + c + "_" + DateStamp(d) + ".pdf" == "consulta_" + c + "_" + y + m + dd + ".pdf";
    StampedNameSlices(c, y, m, dd);
    PadRoundTrip(d.year, 4);
    PadRoundTrip(d.month, 2);
    PadRoundTrip(d.day, 2);
  }

  /** The file name can be read back: the fixed prefix and suffix, the
      cleaned name between them, and the date from the eight digits before
      the extension. */
  lemma FileNameReadsBack(nome: string, d: Date)
    requires FourDigitYear(d)
    ensures var f := FileName(nome, d);
            var n := |f|;
            && f[..9] == "consulta_" && f[n - 4..] == ".pdf" && f[n - 13] == '_'
            && f[9..n - 13] == CleanName(nome)
            && ReadDigits(f[n - 12..n - 8]) == d.year
            && ReadDigits(f[n - 8..n - 6]) == d.month
            && ReadDigits(f[n - 6..n - 4]) == d.day
  {
    StampedNameReadsBack(CleanName(nome), d);
  }
}
