/**
 * The text helpers of the contract manager: the ISO/Brazilian date
 * conversions, the chart colour of an item, the money input masks, the
 * reading of a masked amount, word capitalisation, and the CNPJ lookup that
 * fills in a party from the contracts already stored.
 */
module ContractText {
  import opened Wrappers
  import opened JsStrings
  import opened ContractModel

  // ---------------------------------------------------------------- dates

  /** `formatDate`: "YYYY-MM-DD" becomes "DD/MM/YYYY"; other text is shown as it is. */
  function FormatDate(s: string): string {
    if s == "" then "N/D"
    else if '/' in s then s
    else
      var parts := Split(s, '-');
      if |parts| != 3 then s else parts[2] + "/" + parts[1] + "/" + parts[0]
  }

  /** A missing destructured part prints as "undefined" in a template string. */
  function PartOr(parts: seq<string>, k: nat): string {
    if k < |parts| then parts[k] else "undefined"
  }

  /** `parseDate`: "DD/MM/YYYY" becomes "YYYY-MM-DD"; text without '/' is kept. */
  function ParseDate(s: string): string {
    if s == "" || '/' !in s then s
    else
      var parts := Split(s, '/');
      PartOr(parts, 2) + "-" + PartOr(parts, 1) + "-" + parts[0]
  }

  predicate PlainPart(p: string) { '-' !in p && '/' !in p }

  /** An ISO date whose parts hold no separator is shown day first. */
  lemma FormatIsoDate(y: string, m: string, d: string)
    requires PlainPart(y) && PlainPart(m) && PlainPart(d)
    ensures FormatDate(y + "-" + m + "-" + d) == d + "/" + m + "/" + y
  {
    var s := y + "-" + m + "-" + d;
    SplitThree(y, m, d, '-');
    JoinedExclude(y, m, d, '-', '/');
    assert s[|y|] == '-';
    assert [y, m, d][0] == y && [y, m, d][1] == m && [y, m, d][2] == d;
  }

  /** A Brazilian date whose parts hold no '/' is stored year first. */
  lemma ParseBrazilianDate(d: string, m: string, y: string)
    requires '/' !in d && '/' !in m && '/' !in y
    ensures ParseDate(d + "/" + m + "/" + y) == y + "-" + m + "-" + d
  {
    var s := d + "/" + m + "/" + y;
    SplitThree(d, m, y, '/');
    assert s[|d|] == '/';
    assert [d, m, y][0] == d && [d, m, y][1] == m && [d, m, y][2] == y;
  }

  /** Reading back a shown ISO date gives the stored text. */
  lemma DateRoundTrip(y: string, m: string, d: string)
    requires PlainPart(y) && PlainPart(m) && PlainPart(d)
    ensures ParseDate(FormatDate(y + "-" + m + "-" + d)) == y + "-" + m + "-" + d
  {
    FormatIsoDate(y, m, d);
    ParseBrazilianDate(d, m, y);
  }

  /** Showing a date that is already shown changes nothing. */
  lemma FormatDateIdempotent(s: string)
    ensures FormatDate(FormatDate(s)) == FormatDate(s)
  {
    if s == "" {
      assert IndexOf("N/D", '-') == -1;
      assert Split("N/D", '-') == ["N/D"];
      assert '/' in "N/D" by { assert "N/D"[1] == '/'; }
    } else if '/' !in s {
      var parts := Split(s, '-');
      if |parts| == 3 {
        var r := parts[2] + "/" + parts[1] + "/" + parts[0];
        assert r[|parts[2]|] == '/';
      }
    }
  }

  /** A date with only two parts puts "undefined" where the year would go. */
  lemma ParseDateTwoParts(d: string, m: string)
    requires '/' !in d && '/' !in m
    ensures ParseDate(d + "/" + m) == "undefined-" + m + "-" + d
  {
    var s := d + "/" + m;
    SplitTwo(d, '/', m);
    assert s[|d|] == '/';
    assert [d, m][0] == d && [d, m][1] == m;
  }

  // --------------------------------------------------------------- colours

  const Orange := "#f97316"
  const Green := "#22c55e"
  const Blue := "#3b82f6"
  const Gray := "#6b7280"

  /** `getItemColor`: the chart colour of an item, first matching rule wins. */
  function ItemColor(descricao: string): (color: string)
    ensures color == Orange || color == Green || color == Blue || color == Gray
  {
    var desc := ToLower(descricao);
    if Includes(desc, "emissão") || Includes(desc, "cnd") then Orange
    else if Includes(desc, "faixa 1") then Green
    else if Includes(desc, "faixa 2") then Blue
    else Gray
  }

  /** The colour does not depend on letter case. */
  lemma ItemColorIgnoresCase(s: string)
    ensures ItemColor(ToUpper(s)) == ItemColor(s)
    ensures ItemColor(ToLower(s)) == ItemColor(s)
  {
    forall i | 0 <= i < |s| ensures LowerChar(UpperChar(s[i])) == LowerChar(s[i]) {
      LowerUpperChar(s[i]);
    }
    assert ToLower(ToUpper(s)) == ToLower(s);
    forall i | 0 <= i < |s| ensures LowerChar(LowerChar(s[i])) == LowerChar(s[i]) {
      LowerUpperChar(s[i]);
    }
    assert ToLower(ToLower(s)) == ToLower(s);
  }

  /** A description starting with a marker gets that marker's colour. */
  lemma {:induction false} IncludesPrefix(s: string, sub: string)
    requires sub <= s
    ensures Includes(s, sub)
  {
  }

  /** "cnd" always wins; a "faixa 2" item is never grey (an earlier rule may still apply). */
  lemma ItemColorOfMarkers(rest: string)
    ensures ItemColor("cnd" + rest) == Orange
    ensures ItemColor("faixa 2" + rest) != Gray
  {
    assert ToLower("cnd" + rest)[..3] == "cnd";
    IncludesPrefix(ToLower("cnd" + rest), "cnd");
    assert ToLower("faixa 2" + rest)[..7] == "faixa 2";
    IncludesPrefix(ToLower("faixa 2" + rest), "faixa 2");
  }

  // ------------------------------------------------------------ money mask

  /** `replace(/^0+/, '')`. */
  function StripLeadingZeros(s: string): (r: string)
    ensures r == [] || r[0] != '0'
    ensures |r| <= |s| && r == s[|s| - |r|..]
    decreases |s|
  {
    if |s| > 0 && s[0] == '0' then StripLeadingZeros(s[1..]) else s
  }

  /** The whole-currency digits: leading zeros dropped, `|| '0'` for none left. */
  function Reais(head: string): (r: string)
    ensures |r| > 0
  {
    var t := StripLeadingZeros(head);
    if |t| == 0 then "0" else t
  }

  /**
   * `replace(/\B(?=(\d{3})+(?!\d))/g, '.')` on a digit string: a dot goes
   * between two digits whenever the digits after that point are a positive
   * multiple of three.
   */
  function GroupThousands(s: string): string
    decreases |s|
  {
    if |s| == 0 then []
    else [s[0]] + (if |s| - 1 > 0 && (|s| - 1) % 3 == 0 then "." else "") + GroupThousands(s[1..])
  }

  /**
   * `formatInputAsBRL` (`decimals` = 2) and `formatInputAsBRL_3dec`
   * (`decimals` = 3): keep the typed digits, read the last `decimals` of them
   * as the fraction, and group the rest in thousands.
   */
  function MaskBRL(input: string, decimals: nat): string
    requires decimals > 0
  {
    var digits := OnlyDigits(input);
    if |digits| == 0 then ""
    else GroupThousands(Whole(digits, decimals)) + "," + Fraction(digits, decimals)
  }

  /** `value.padStart(decimals + 1, '0').slice(-decimals)`. */
  function Fraction(digits: string, decimals: nat): (f: string)
    requires decimals > 0
    ensures |f| == decimals
  {
    var padded := PadStart(digits, decimals + 1, '0');
    padded[|padded| - decimals..]
  }

  /** `value.padStart(decimals + 1, '0').slice(0, -decimals)`, without leading zeros. */
  function Whole(digits: string, decimals: nat): string
    requires decimals > 0
  {
    var padded := PadStart(digits, decimals + 1, '0');
    Reais(padded[..|padded| - decimals])
  }

  /** `parseBRL`: drop the thousands dots, read the first comma as the decimal point. */
  function ParseBRL(value: string): real {
    if |value| == 0 then 0.0
    else ParseFloat(ReplaceFirst(Remove(value, '.'), ',', '.')).GetOr(0.0)
  }

  lemma {:induction false} StripLeadingZerosValue(s: string)
    requires AllDigits(s)
    ensures AllDigits(StripLeadingZeros(s))
    ensures DigitsToNat(StripLeadingZeros(s)) == DigitsToNat(s)
    decreases |s|
  {
    if |s| > 0 && s[0] == '0' {
      StripLeadingZerosValue(s[1..]);
      assert s == "0" + s[1..];
      DigitsToNatLeadingZero(s[1..]);
    }
  }

  lemma ReaisValue(head: string)
    requires AllDigits(head)
    ensures AllDigits(Reais(head)) && DigitsToNat(Reais(head)) == DigitsToNat(head)
  {
    var t := StripLeadingZeros(head);
    StripLeadingZerosValue(head);
    if |t| == 0 {
      assert "0"[..0] == [];
      assert DigitsToNat("0") == 10 * DigitsToNat([]) + DigitValue('0');
    }
  }

  lemma ReaisIdempotent(head: string)
    ensures Reais(Reais(head)) == Reais(head)
  {
  }

  /** Grouping only inserts dots: removing them, or cleaning to digits, gives the digits back. */
  lemma GroupThousandsDigits(s: string)
    requires AllDigits(s)
    ensures Remove(GroupThousands(s), '.') == s
    ensures OnlyDigits(GroupThousands(s)) == s
  {
    GroupRemoveDots(s);
    GroupOnlyDigits(s);
  }

  lemma {:induction false} GroupRemoveDots(s: string)
    requires AllDigits(s)
    ensures Remove(GroupThousands(s), '.') == s
    decreases |s|
  {
    if |s| > 0 {
      GroupRemoveDots(s[1..]);
      var dot: string := if |s| - 1 > 0 && (|s| - 1) % 3 == 0 then "." else "";
      var g := GroupThousands(s[1..]);
      assert GroupThousands(s) == ([s[0]] + dot) + g;
      RemoveAppend([s[0]] + dot, g, '.');
      assert Remove([s[0]] + dot, '.') == [s[0]] by {
        RemoveAppend([s[0]], dot, '.');
      }
      assert s == [s[0]] + s[1..];
    }
  }

  lemma {:induction false} GroupOnlyDigits(s: string)
    requires AllDigits(s)
    ensures OnlyDigits(GroupThousands(s)) == s
    decreases |s|
  {
    if |s| > 0 {
      GroupOnlyDigits(s[1..]);
      var dot: string := if |s| - 1 > 0 && (|s| - 1) % 3 == 0 then "." else "";
      var g := GroupThousands(s[1..]);
      assert GroupThousands(s) == ([s[0]] + dot) + g;
      OnlyDigitsAppend([s[0]] + dot, g);
      assert OnlyDigits([s[0]] + dot) == [s[0]] by {
        OnlyDigitsAppend([s[0]], dot);
      }
      assert s == [s[0]] + s[1..];
    }
  }

  /** One dot for every full group of three digits after the first. */
  lemma {:induction false} GroupThousandsLength(s: string)
    requires |s| > 0
    ensures |GroupThousands(s)| == |s| + (|s| - 1) / 3
    decreases |s|
  {
    if |s| > 1 {
      GroupThousandsLength(s[1..]);
    }
  }

  /** The typed digits are the whole part followed by the fraction, in value. */
  lemma WholeAndFraction(digits: string, decimals: nat)
    requires decimals > 0 && AllDigits(digits)
    ensures AllDigits(Whole(digits, decimals)) && AllDigits(Fraction(digits, decimals))
    ensures DigitsToNat(digits)
      == DigitsToNat(Whole(digits, decimals)) * Pow10(decimals) + DigitsToNat(Fraction(digits, decimals))
    ensures Reais(Whole(digits, decimals)) == Whole(digits, decimals)
  {
    var padded := PadStart(digits, decimals + 1, '0');
    assert Whole(digits, decimals) == Reais(padded[..|padded| - decimals]);
    assert Fraction(digits, decimals) == padded[|padded| - decimals..];
    PadStartZerosValue(digits, decimals + 1);
    SplitPadded(padded, decimals);
  }

  lemma SplitPadded(padded: string, decimals: nat)
    requires AllDigits(padded) && |padded| > decimals
    ensures AllDigits(Reais(padded[..|padded| - decimals])) && AllDigits(padded[|padded| - decimals..])
    ensures DigitsToNat(padded) == DigitsToNat(Reais(padded[..|padded| - decimals])) * Pow10(decimals)
      + DigitsToNat(padded[|padded| - decimals..])
    ensures Reais(Reais(padded[..|padded| - decimals])) == Reais(padded[..|padded| - decimals])
  {
    var head := padded[..|padded| - decimals];
    var cents := padded[|padded| - decimals..];
    assert padded == head + cents;
    DigitsToNatAppend(head, cents);
    ReaisValue(head);
    ReaisIdempotent(head);
  }

  /** Removing the dots of a masked value leaves "<whole>,<fraction>". */
  lemma RemoveDotsMasked(w: string, f: string)
    requires AllDigits(w) && AllDigits(f)
    ensures Remove(GroupThousands(w) + "," + f, '.') == w + [','] + f
  {
    RemoveDotsGroup(w);
    RemoveAbsent(f, '.');
    AppendRemoved(GroupThousands(w) + ",", f, w + [','], f);
  }

  lemma RemoveDotsGroup(w: string)
    requires AllDigits(w)
    ensures Remove(GroupThousands(w) + ",", '.') == w + [',']
  {
    GroupThousandsDigits(w);
    RemoveAppend(GroupThousands(w), ",", '.');
    assert Remove(",", '.') == ",";
  }

  lemma AppendRemoved(a: string, b: string, a': string, b': string)
    requires Remove(a, '.') == a' && Remove(b, '.') == b'
    ensures Remove(a + b, '.') == a' + b'
  {
    RemoveAppend(a, b, '.');
  }

  /** A masked value reads back as "<whole>.<fraction>". */
  lemma ReadMasked(w: string, f: string)
    requires AllDigits(w) && AllDigits(f) && |w| > 0
    ensures ParseBRL(GroupThousands(w) + "," + f)
      == DigitsToNat(w) as real + DigitsToNat(f) as real / Pow10(|f|) as real
  {
    var m := GroupThousands(w) + "," + f;
    assert |m| > 0 by { assert |m| >= |f| + 1; }
    RemoveDotsMasked(w, f);
    ReplaceFirstAt(w, f, ',', '.');
    ParseFloatDecimal(w, f);
    assert w + "." + f == w + ['.'] + f;
  }

  /** Cleaning a masked value to digits gives the whole part and the fraction. */
  lemma CleanMasked(w: string, f: string)
    requires AllDigits(w) && AllDigits(f)
    ensures OnlyDigits(GroupThousands(w) + "," + f) == w + f
  {
    CleanGroup(w);
    OnlyDigitsOfDigits(f);
    AppendCleaned(GroupThousands(w) + ",", f, w, f);
  }

  lemma CleanGroup(w: string)
    requires AllDigits(w)
    ensures OnlyDigits(GroupThousands(w) + ",") == w
  {
    GroupThousandsDigits(w);
    OnlyDigitsAppend(GroupThousands(w), ",");
    assert OnlyDigits(",") == "";
  }

  lemma AppendCleaned(a: string, b: string, a': string, b': string)
    requires OnlyDigits(a) == a' && OnlyDigits(b) == b'
    ensures OnlyDigits(a + b) == a' + b'
  {
    OnlyDigitsAppend(a, b);
  }

  lemma {:induction false} OnlyDigitsCommaFree(g: string)
    requires ',' in g
    ensures |OnlyDigits(g)| < |g|
    decreases |g|
  {
    if g[0] != ',' {
      OnlyDigitsCommaFree(g[1..]);
    }
  }

  /** The shape of a mask: empty exactly when nothing was typed, else "<group>,<fraction>". */
  lemma MaskShape(input: string, decimals: nat)
    requires decimals > 0
    ensures MaskBRL(input, decimals) == "" <==> OnlyDigits(input) == ""
    ensures OnlyDigits(input) != "" ==> exists g: string, f: string ::
      (MaskBRL(input, decimals) == g + "," + f && |f| == decimals && AllDigits(f) && ',' !in g)
  {
    var digits := OnlyDigits(input);
    if |digits| > 0 {
      WholeAndFraction(digits, decimals);
      var w := Whole(digits, decimals);
      var f := Fraction(digits, decimals);
      var g := GroupThousands(w);
      CommaFreeGroup(w);
      assert MaskBRL(input, decimals) == g + "," + f;
    }
  }

  lemma CommaFreeGroup(w: string)
    requires AllDigits(w)
    ensures ',' !in GroupThousands(w)
  {
    var g := GroupThousands(w);
    GroupThousandsDigits(w);
    if ',' in g {
      OnlyDigitsCommaFree(g);
    }
  }

  lemma ScaleBack(d: nat, h: nat, c: nat, p: nat)
    requires p > 0 && d == h * p + c
    ensures d as real / p as real == h as real + c as real / p as real
  {
    assert d as real == h as real * p as real + c as real;
  }

  /**
   * Reading a masked amount gives the typed digits as a number with
   * `decimals` fraction digits (nothing typed reads as 0).
   */
  lemma ParseMaskedAmount(input: string, decimals: nat)
    requires decimals > 0
    ensures ParseBRL(MaskBRL(input, decimals))
      == DigitsToNat(OnlyDigits(input)) as real / Pow10(decimals) as real
  {
    var digits := OnlyDigits(input);
    if |digits| > 0 {
      WholeAndFraction(digits, decimals);
      var w := Whole(digits, decimals);
      var f := Fraction(digits, decimals);
      assert MaskBRL(input, decimals) == GroupThousands(w) + "," + f;
      ReadMasked(w, f);
      ScaleBack(DigitsToNat(digits), DigitsToNat(w), DigitsToNat(f), Pow10(decimals));
    } else {
      assert MaskBRL(input, decimals) == "";
    }
  }

  /** Masking an already masked value leaves it unchanged. */
  lemma MaskIdempotent(input: string, decimals: nat)
    requires decimals > 0
    ensures MaskBRL(MaskBRL(input, decimals), decimals) == MaskBRL(input, decimals)
  {
    var digits := OnlyDigits(input);
    if |digits| > 0 {
      WholeAndFraction(digits, decimals);
      var w := Whole(digits, decimals);
      var f := Fraction(digits, decimals);
      CleanMasked(w, f);
      RemaskParts(w, f, decimals);
    }
  }

  /** The parts of "<whole><fraction>" are that whole and that fraction again. */
  lemma RemaskParts(w: string, f: string, decimals: nat)
    requires decimals > 0 && |f| == decimals && w == Reais(w)
    ensures Whole(w + f, decimals) == w && Fraction(w + f, decimals) == f
  {
    var d := w + f;
    assert PadStart(d, decimals + 1, '0') == d;
    assert d[..|d| - decimals] == w;
    assert d[|d| - decimals..] == f;
  }

  // ------------------------------------------------------- capitalisation

  const Exceptions: seq<string> := ["de", "da", "do", "dos", "das"]

  /** One word of `capitalizeWords`: the connectives stay lower case. */
  function CapitalizeWord(w: string): (r: string)
    ensures |r| == |w|
  {
    if w in Exceptions || |w| == 0 then w else [UpperChar(w[0])] + w[1..]
  }

  function CapitalizeAll(ws: seq<string>): (r: seq<string>)
    ensures |r| == |ws|
    ensures forall k :: 0 <= k < |ws| ==> r[k] == CapitalizeWord(ws[k])
  {
    seq(|ws|, k requires 0 <= k < |ws| => CapitalizeWord(ws[k]))
  }

  /** `capitalizeWords`: lower-case everything, then capitalise each space-separated word. */
  function CapitalizeWords(s: string): string {
    Join(CapitalizeAll(Split(ToLower(s), ' ')), ' ')
  }

  predicate IsLower(s: string) { forall i :: 0 <= i < |s| ==> LowerChar(s[i]) == s[i] }

  lemma {:induction false} JoinSameLengths(ps: seq<string>, qs: seq<string>, sep: char)
    requires |ps| == |qs|
    requires forall k :: 0 <= k < |ps| ==> |ps[k]| == |qs[k]|
    ensures |Join(ps, sep)| == |Join(qs, sep)|
    decreases |ps|
  {
    if |ps| > 1 {
      JoinSameLengths(ps[1..], qs[1..], sep);
    }
  }

  /** Capitalising keeps the length of the text. */
  lemma CapitalizeWordsLength(s: string)
    ensures |CapitalizeWords(s)| == |s|
  {
    var t := ToLower(s);
    var parts := Split(t, ' ');
    JoinSplit(t, ' ');
    JoinSameLengths(CapitalizeAll(parts), parts, ' ');
  }

  lemma {:induction false} SplitLower(s: string, sep: char)
    requires IsLower(s)
    ensures forall k :: 0 <= k < |Split(s, sep)| ==> IsLower(Split(s, sep)[k])
    decreases |s|
  {
    var i := IndexOf(s, sep);
    if i >= 0 {
      SplitLower(s[i + 1..], sep);
      assert IsLower(s[..i]);
      var rest := Split(s[i + 1..], sep);
      assert Split(s, sep) == [s[..i]] + rest;
    }
  }

  /** Lower-casing a capitalised lower-case word gives the word back. */
  lemma LowerCapitalized(w: string)
    requires IsLower(w)
    ensures ToLower(CapitalizeWord(w)) == w
  {
    if !(w in Exceptions || |w| == 0) {
      LowerUpperChar(w[0]);
      var r := CapitalizeWord(w);
      assert ToLower(r)[0] == w[0];
      forall i | 1 <= i < |w| ensures ToLower(r)[i] == w[i] {
        assert r[i] == w[i];
      }
    } else {
      assert ToLower(w) == w;
    }
  }

  /** Lower-casing distributes over a join whose separator has no case. */
  lemma {:induction false} LowerJoin(ps: seq<string>, qs: seq<string>, sep: char)
    requires |ps| == |qs| && LowerChar(sep) == sep
    requires forall k :: 0 <= k < |ps| ==> ToLower(ps[k]) == qs[k]
    ensures ToLower(Join(ps, sep)) == Join(qs, sep)
    decreases |ps|
  {
    if |ps| > 1 {
      LowerJoin(ps[1..], qs[1..], sep);
      var a := ps[0] + [sep];
      var b := Join(ps[1..], sep);
      assert Join(ps, sep) == a + b;
      assert ToLower(a + b) == ToLower(a) + ToLower(b);
      assert ToLower(a) == qs[0] + [sep];
    }
  }

  /** Capitalising twice is capitalising once. */
  lemma CapitalizeWordsIdempotent(s: string)
    ensures CapitalizeWords(CapitalizeWords(s)) == CapitalizeWords(s)
  {
    var t := ToLower(s);
    forall i | 0 <= i < |t| ensures LowerChar(t[i]) == t[i] {
      LowerUpperChar(s[i]);
    }
    var parts := Split(t, ' ');
    SplitLower(t, ' ');
    var caps := CapitalizeAll(parts);
    forall k | 0 <= k < |caps| ensures ToLower(caps[k]) == parts[k] {
      LowerCapitalized(parts[k]);
    }
    LowerJoin(caps, parts, ' ');
    JoinSplit(t, ' ');
    assert ToLower(CapitalizeWords(s)) == t;
  }

  // ---------------------------------------------------------- CNPJ lookup

  /** Which party field the lookup was started from. */
  datatype PartyField = UnidadeField | EmpresaField

  function PartyIn(c: Contract, f: PartyField): Party {
    if f == UnidadeField then c.data.unidade else c.data.empresa
  }

  function OtherField(f: PartyField): PartyField {
    if f == UnidadeField then EmpresaField else UnidadeField
  }

  /** A stored party matches when it has a CNPJ whose digits are the typed digits. */
  predicate Matches(p: Party, digits: string) {
    p.cnpj != "" && OnlyDigits(p.cnpj) == digits
  }

  predicate NoMatchIn(c: Contract, digits: string) {
    !Matches(c.data.unidade, digits) && !Matches(c.data.empresa, digits)
  }

  /** The contracts before position `i` have no matching party. */
  predicate NoMatchBefore(store: seq<Contract>, digits: string, i: int)
    requires 0 <= i <= |store|
  {
    forall j :: 0 <= j < i ==> NoMatchIn(store[j], digits)
  }

  /** The first contract with a match gives its party, the field looked up first. */
  function FirstParty(store: seq<Contract>, digits: string, f: PartyField): Option<Party>
    decreases |store|
  {
    if |store| == 0 then None
    else if Matches(PartyIn(store[0], f), digits) then Some(PartyIn(store[0], f))
    else if Matches(PartyIn(store[0], OtherField(f)), digits) then Some(PartyIn(store[0], OtherField(f)))
    else FirstParty(store[1..], digits, f)
  }

  /** The blur listeners: nothing is looked up before the CNPJ has 14 digits. */
  function LookupCnpj(store: seq<Contract>, input: string, f: PartyField): Option<Party> {
    var digits := OnlyDigits(input);
    if |digits| < 14 then None else FirstParty(store, digits, f)
  }

  /** The fields written into the form: name and representative are capitalised. */
  datatype PartyFields = PartyFields(nome: string, endereco: string, rep: string)

  function FillFrom(p: Party): PartyFields {
    PartyFields(CapitalizeWords(p.nome), p.endereco, CapitalizeWords(p.rep))
  }

  /** The loop of the listener, with its early exit. */
  method AutoFill(store: seq<Contract>, input: string, f: PartyField) returns (filled: Option<PartyFields>)
    ensures LookupCnpj(store, input, f).None? ==> filled.None?
    ensures LookupCnpj(store, input, f).Some? ==> filled == Some(FillFrom(LookupCnpj(store, input, f).value))
  {
    var digits := OnlyDigits(input);
    if |digits| < 14 {
      return None;
    }
    var found: Option<Party> := None;
    var i := 0;
    while i < |store|
      invariant 0 <= i <= |store|
      invariant found.None? ==> FirstParty(store, digits, f) == FirstParty(store[i..], digits, f)
      invariant found.Some? ==> found == FirstParty(store, digits, f)
    {
      var c := store[i];
      if Matches(PartyIn(c, f), digits) {
        found := Some(PartyIn(c, f));
        break;
      }
      if Matches(PartyIn(c, OtherField(f)), digits) {
        found := Some(PartyIn(c, OtherField(f)));
        break;
      }
      assert store[i..][1..] == store[i + 1..];
      i := i + 1;
    }
    if found.Some? {
      filled := Some(FillFrom(found.value));
    } else {
      filled := None;
    }
  }

  /**
   * A party is found exactly when 14 or more digits were typed and some stored
   * party matches them; it comes from the first contract with a match, and is
   * that contract's party of the field looked up when that one matches.
   */
  lemma {:induction false} FirstPartySpec(store: seq<Contract>, digits: string, f: PartyField)
    ensures FirstParty(store, digits, f).None? <==> NoMatchBefore(store, digits, |store|)
    ensures FirstParty(store, digits, f).Some? ==> exists i :: (0 <= i < |store|
      && NoMatchBefore(store, digits, i) && FoundAt(store[i], FirstParty(store, digits, f).value, digits, f))
    decreases |store|
  {
    if |store| > 0 {
      FirstPartySpec(store[1..], digits, f);
      var r := FirstParty(store, digits, f);
      if !NoMatchIn(store[0], digits) {
        assert FoundAt(store[0], r.value, digits, f);
        assert NoMatchBefore(store, digits, 0);
        assert !NoMatchBefore(store, digits, |store|);
      } else {
        assert r == FirstParty(store[1..], digits, f);
        if r.Some? {
          var i :| 0 <= i < |store[1..]| && NoMatchBefore(store[1..], digits, i)
            && FoundAt(store[1..][i], r.value, digits, f);
          assert store[1..][i] == store[i + 1];
          assert NoMatchBefore(store, digits, i + 1) by {
            forall j | 0 <= j < i + 1 ensures NoMatchIn(store[j], digits) {
              if j > 0 {
                assert store[j] == store[1..][j - 1];
              }
            }
          }
          assert !NoMatchBefore(store, digits, |store|) by {
            assert !NoMatchIn(store[i + 1], digits);
          }
        } else {
          assert NoMatchBefore(store, digits, |store|) by {
            forall j | 0 <= j < |store| ensures NoMatchIn(store[j], digits) {
              if j > 0 {
                assert store[j] == store[1..][j - 1];
              }
            }
          }
        }
      }
    }
  }

  /** `p` is a matching party of `c`, preferring the field looked up first. */
  predicate FoundAt(c: Contract, p: Party, digits: string, f: PartyField) {
    Matches(p, digits)
    && (p == PartyIn(c, f) || p == PartyIn(c, OtherField(f)))
    && (Matches(PartyIn(c, f), digits) ==> p == PartyIn(c, f))
  }

  lemma LookupCnpjSpec(store: seq<Contract>, input: string, f: PartyField)
    ensures LookupCnpj(store, input, f).Some?
      <==> |OnlyDigits(input)| >= 14 && !NoMatchBefore(store, OnlyDigits(input), |store|)
    ensures LookupCnpj(store, input, f).Some? ==> exists i :: (0 <= i < |store|
      && NoMatchBefore(store, OnlyDigits(input), i)
      && FoundAt(store[i], LookupCnpj(store, input, f).value, OnlyDigits(input), f))
  {
    FirstPartySpec(store, OnlyDigits(input), f);
  }
}
