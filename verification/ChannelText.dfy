/** The `--channels` option on every argument string: separators, white space, signs, leading zeros and trailing text.
    */
module ChannelText {
  import opened Bytes
  import opened Protocol
  import opened ChannelList

  // ----- tokens

  /** White space of the C locale: blank, and the codes 9 to 13. */
  predicate White(s: string) {
    forall c :: c in s ==> c as int == 32 || 9 <= c as int <= 13
  }

  predicate Sign(s: string) {
    s == "" || s == "+" || s == "-"
  }

  function Repeat(c: char, k: nat): (s: string)
    ensures |s| == k && forall i :: 0 <= i < k ==> s[i] == c
  {
    seq(k, _ => c)
  }

  /** A non-empty token: white space, perhaps a sign, and then a numeral and other text, other text only, or nothing. */
  datatype Form =
    | Numeral(lead: string, sign: string, zeros: nat, value: nat, tail: string)
    | Text(lead: string, sign: string, tail: string)
    | Blank(lead: string)

  predicate NoDigitFirst(s: string) {
    s == "" || !('0' <= s[0] <= '9')
  }

  predicate FormOk(f: Form) {
    match f
    case Numeral(lead, sign, _, _, tail) => White(lead) && Sign(sign) && ',' !in tail && NoDigitFirst(tail)
    case Text(lead, sign, tail) =>
      && White(lead) && Sign(sign) && ',' !in tail && NoDigitFirst(tail)
      && (sign == "" ==> tail != "" && !White(tail[..1]) && tail[0] != '+' && tail[0] != '-')
    case Blank(lead) => White(lead) && lead != ""
  }

  function TextOfForm(f: Form): string {
    match f
    case Numeral(lead, sign, zeros, value, tail) => lead + (sign + (Repeat('0', zeros) + Decimal(value) + tail))
    case Text(lead, sign, tail) => lead + (sign + tail)
    case Blank(lead) => lead
  }

  /** The converted value; a minus sign negates modulo 2^32. */
  function ValueOf(f: Form): nat
    requires f.Numeral?
  {
    if f.sign == "-" then (0x1_0000_0000 - f.value % 0x1_0000_0000) % 0x1_0000_0000 else f.value
  }

  // ----- converting a token

  lemma {:induction false} SkipLead(lead: string, s: string)
    requires White(lead) && (s == "" || !White(s[..1]))
    ensures SkipSpace(lead + s) == s
  {
    if lead == "" {
      assert lead + s == s;
      if s != "" {
        assert s[..1] == [s[0]];
      }
    } else {
      assert lead[0] in lead;
      assert (lead + s)[1..] == lead[1..] + s;
      assert forall c :: c in lead[1..] ==> c in lead;
      SkipLead(lead[1..], s);
    }
  }

  lemma {:induction false} DigitsThenOther(digits: string, tail: string)
    requires (forall c :: c in digits ==> IsDigit(c)) && NoDigitFirst(tail)
    ensures DigitPrefix(digits + tail) == digits
  {
    if digits == "" {
      assert digits + tail == tail;
    } else {
      assert digits[0] in digits;
      assert (digits + tail)[1..] == digits[1..] + tail;
      DigitsThenOther(digits[1..], tail);
    }
  }

  lemma AllDigits(zeros: nat, value: nat)
    ensures forall c :: c in Repeat('0', zeros) + Decimal(value) ==> IsDigit(c)
  {
  }

  lemma {:induction false} ZerosValue(k: nat)
    ensures forall c :: c in Repeat('0', k) ==> IsDigit(c)
    ensures DigitsValue(Repeat('0', k)) == 0
  {
    if k > 0 {
      ZerosValue(k - 1);
      assert Repeat('0', k)[..k - 1] == Repeat('0', k - 1);
    }
  }

  /** Leading zeros do not change the value. */
  lemma {:induction false} PaddedValue(zeros: nat, s: string)
    requires forall c :: c in s ==> IsDigit(c)
    ensures forall c :: c in Repeat('0', zeros) + s ==> IsDigit(c)
    ensures DigitsValue(Repeat('0', zeros) + s) == DigitsValue(s)
  {
    var all := Repeat('0', zeros) + s;
    if s == "" {
      ZerosValue(zeros);
      assert all == Repeat('0', zeros);
    } else {
      var init := s[..|s| - 1];
      PaddedValue(zeros, init);
      assert all[..|all| - 1] == Repeat('0', zeros) + init;
    }
  }

  /** A token converts to its value if it holds a numeral, to nothing if it holds other text, and ends the input if
      blank. */
  lemma ScanForm(f: Form)
    requires FormOk(f)
    ensures ScanUnsigned(TextOfForm(f)) == match f
      case Numeral(_, _, _, _, _) => Number(ValueOf(f))
      case Text(_, _, _) => NoMatch
      case Blank(_) => EndOfInput
  {
    hide ScanUnsigned;
    match f
    case Numeral(lead, sign, zeros, value, tail) => ScanNumeral(f);
    case Text(lead, sign, tail) => ScanText(f);
    case Blank(lead) => ScanBlank(lead);
  }

  lemma ScanBlank(lead: string)
    requires White(lead)
    ensures ScanUnsigned(lead) == EndOfInput
  {
    SkipLead(lead, "");
    assert lead + "" == lead;
  }

  /** What follows the white space, given its digits. */
  lemma ScanBody(lead: string, sign: string, body: string, digits: string)
    requires White(lead) && Sign(sign) && DigitPrefix(body) == digits && sign + body != ""
    requires sign == "" ==> !White(body[..1]) && body[0] != '+' && body[0] != '-'
    requires forall c :: c in digits ==> IsDigit(c)
    ensures ScanUnsigned(lead + (sign + body))
         == if digits == "" then NoMatch
            else if sign == "-" then Number((TWO_32 - DigitsValue(digits) % TWO_32) % TWO_32)
            else Number(DigitsValue(digits))
  {
    hide DigitPrefix, DigitsValue;
    var s := sign + body;
    if sign == "" {
      assert s == body;
    } else {
      assert s[0] == sign[0] && s[1..] == body && s[..1] == sign;
      assert sign[0] in s[..1];
    }
    SkipLead(lead, s);
  }

  lemma ScanNumeral(f: Form)
    requires FormOk(f) && f.Numeral?
    ensures ScanUnsigned(TextOfForm(f)) == Number(ValueOf(f))
  {
    hide ScanUnsigned, Decimal, DigitPrefix, DigitsValue;
    var digits := Repeat('0', f.zeros) + Decimal(f.value);
    AllDigits(f.zeros, f.value);
    DigitsThenOther(digits, f.tail);
    assert (digits + f.tail)[0] == digits[0] && digits[0] in digits && digits[0] in (digits + f.tail)[..1];
    PaddedValue(f.zeros, Decimal(f.value));
    DecimalValue(f.value);
    ScanBody(f.lead, f.sign, digits + f.tail, digits);
  }

  lemma ScanText(f: Form)
    requires FormOk(f) && f.Text?
    ensures ScanUnsigned(TextOfForm(f)) == NoMatch
  {
    hide ScanUnsigned;
    assert DigitPrefix(f.tail) == "";
    ScanBody(f.lead, f.sign, f.tail, "");
  }

  lemma FormIsToken(f: Form)
    requires FormOk(f)
    ensures TextOfForm(f) != "" && ',' !in TextOfForm(f)
  {
    if f.Numeral? {
      var d := Decimal(f.value);
      assert d[0] in TextOfForm(f);
      assert !IsDigit(',');
    }
  }

  // ----- lists of tokens

  /** A token and the number of commas before it. */
  datatype Piece = Piece(commas: nat, form: Form)

  /** Any number of commas at the start and at the end, and at least one between two tokens. */
  predicate Separated(pieces: seq<Piece>) {
    forall i :: 0 <= i < |pieces| ==> FormOk(pieces[i].form) && (i > 0 ==> pieces[i].commas > 0)
  }

  function Spread(pieces: seq<Piece>, trailing: nat): string {
    if pieces == [] then Repeat(',', trailing)
    else Repeat(',', pieces[0].commas) + (TextOfForm(pieces[0].form) + Spread(pieces[1..], trailing))
  }

  /** The tokens before the first blank one: each numeral by its value. */
  function Tidy(pieces: seq<Piece>): seq<Item> {
    if pieces == [] || pieces[0].form.Blank? then []
    else
      var f := pieces[0].form;
      [if f.Numeral? then Id(ValueOf(f)) else Word(TextOfForm(f))] + Tidy(pieces[1..])
  }

  lemma {:induction false} TidyPrintable(pieces: seq<Piece>)
    requires Separated(pieces)
    ensures Printable(Tidy(pieces))
  {
    hide ScanUnsigned, TextOfForm, IsWord;
    if pieces != [] {
      var f := pieces[0].form;
      assert forall i :: 0 <= i < |pieces| - 1 ==> pieces[1..][i] == pieces[i + 1];
      TidyPrintable(pieces[1..]);
      if f.Text? {
        TextIsWord(f);
      }
    }
  }

  lemma TextIsWord(f: Form)
    requires FormOk(f) && f.Text?
    ensures IsWord(TextOfForm(f))
  {
    hide ScanUnsigned;
    FormIsToken(f);
    ScanForm(f);
  }

  lemma {:induction false} SkipRepeated(k: nat, s: string)
    requires s == "" || s[0] != ','
    ensures SkipCommas(Repeat(',', k) + s) == s
  {
    var all := Repeat(',', k) + s;
    if k == 0 {
      assert all == s;
    } else {
      assert all[1..] == Repeat(',', k - 1) + s;
      SkipRepeated(k - 1, s);
    }
  }

  /** What is left after a token and the separator behind it. */
  lemma Rest(pieces: seq<Piece>, trailing: nat) returns (next: seq<Piece>, after: nat)
    requires Separated(pieces) && pieces != []
    ensures Separated(next) && |next| == |pieces| - 1 && Tidy(next) == Tidy(pieces[1..])
    ensures var r := Spread(pieces[1..], trailing);
            && (r == "" || r[0] == ',') && Spread(next, after) == if r == "" then "" else r[1..]
  {
    hide TextOfForm, FormOk, Repeat, Spread, Tidy;
    var tail := pieces[1..];
    if tail == [] {
      next, after := [], if trailing == 0 then 0 else trailing - 1;
      OneComma(trailing);
      SpreadNone(trailing);
      SpreadNone(after);
    } else {
      assert tail[0] == pieces[1] && tail == [tail[0]] + tail[1..];
      SeparatedTail(pieces);
      next, after := [Piece(tail[0].commas - 1, tail[0].form)] + tail[1..], trailing;
      SeparatedLess(tail, next);
      SpreadFirst(tail[0], tail[1..], trailing);
      SpreadFirst(next[0], tail[1..], trailing);
      DropComma(tail[0].commas, TextOfForm(tail[0].form) + Spread(tail[1..], trailing));
      TidySame(tail[0], next[0], tail[1..]);
    }
  }

  lemma SeparatedTail(pieces: seq<Piece>)
    requires Separated(pieces) && pieces != []
    ensures Separated(pieces[1..]) && (|pieces| > 1 ==> pieces[1].commas > 0)
  {
    hide FormOk;
    assert forall i :: 0 <= i < |pieces| - 1 ==> pieces[1..][i] == pieces[i + 1];
  }

  lemma SeparatedLess(tail: seq<Piece>, next: seq<Piece>)
    requires Separated(tail) && |next| == |tail| > 0 && next[0].form == tail[0].form && next[1..] == tail[1..]
    ensures Separated(next)
  {
    hide FormOk;
    assert forall i :: 0 < i < |next| ==> next[i] == next[1..][i - 1] == tail[i];
  }

  lemma SpreadNone(trailing: nat)
    ensures Spread([], trailing) == Repeat(',', trailing)
  {
  }

  lemma SpreadFirst(p: Piece, tail: seq<Piece>, trailing: nat)
    ensures Spread([p] + tail, trailing) == Repeat(',', p.commas) + (TextOfForm(p.form) + Spread(tail, trailing))
  {
    hide TextOfForm, Repeat;
    assert ([p] + tail)[1..] == tail;
  }

  lemma TidySame(p: Piece, q: Piece, tail: seq<Piece>)
    requires p.form == q.form
    ensures Tidy([p] + tail) == Tidy([q] + tail)
  {
    hide TextOfForm;
    assert ([p] + tail)[1..] == tail && ([q] + tail)[1..] == tail;
  }

  lemma OneComma(k: nat)
    ensures Repeat(',', k) == if k == 0 then "" else [','] + Repeat(',', k - 1)
  {
  }

  lemma DropComma(k: nat, body: string)
    requires k > 0
    ensures (Repeat(',', k) + body)[0] == ',' && (Repeat(',', k) + body)[1..] == Repeat(',', k - 1) + body
  {
    OneComma(k);
  }

  lemma SpreadToken(pieces: seq<Piece>, trailing: nat, r: string)
    requires Separated(pieces) && pieces != [] && r == Spread(pieces[1..], trailing) && (r == "" || r[0] == ',')
    ensures StrTok(Spread(pieces, trailing)) == Token(TextOfForm(pieces[0].form), if r == "" then "" else r[1..])
  {
    hide TextOfForm;
    var text := TextOfForm(pieces[0].form);
    FormIsToken(pieces[0].form);
    assert text[0] in text && (text + r)[0] == text[0];
    SkipRepeated(pieces[0].commas, text + r);
    FirstToken(text, r);
    assert (text + r)[..|text|] == text;
    if r != "" {
      assert (text + r)[|text| + 1..] == r[1..];
    }
  }

  lemma {:induction false} ParseSpreadRest(pieces: seq<Piece>, trailing: nat, room: nat, chan: nat)
    requires Separated(pieces)
    ensures ParseRest(StrTok(Spread(pieces, trailing)), room, chan) == UsableIds(Filled(Tidy(pieces), chan), room)
    decreases |pieces|
  {
    hide ScanUnsigned, StrTok, ParseRest, TextOfForm, Spread, FormOk;
    if pieces == [] {
      NothingSpread(trailing);
      ParseFull(StrTok(Spread([], trailing)), room, chan);
    } else if room == 0 {
      ParseFull(StrTok(Spread(pieces, trailing)), room, chan);
    } else {
      var f := pieces[0].form;
      var next, after := Rest(pieces, trailing);
      SpreadToken(pieces, trailing, Spread(pieces[1..], trailing));
      ScanForm(f);
      var t := StrTok(Spread(pieces, trailing));
      if f.Blank? {
        StopsAtBlank(t, room, chan);
      } else {
        var value := if f.Numeral? then ValueOf(f) else chan;
        ParseOne(t, room, chan, ScanUnsigned(TextOfForm(f)), value);
        ParseSpreadRest(next, after, room - 1, value);
        FilledTidy(pieces, chan, value);
      }
    }
  }

  lemma FilledTidy(pieces: seq<Piece>, chan: nat, value: nat)
    requires pieces != [] && !pieces[0].form.Blank?
    requires value == if pieces[0].form.Numeral? then ValueOf(pieces[0].form) else chan
    ensures Filled(Tidy(pieces), chan) == [value] + Filled(Tidy(pieces[1..]), value)
  {
    hide TextOfForm, ValueOf;
    assert Tidy(pieces)[1..] == Tidy(pieces[1..]);
  }

  lemma NothingSpread(trailing: nat)
    ensures StrTok(Spread([], trailing)) == NoToken
  {
    SkipRepeated(trailing, "");
    assert Repeat(',', trailing) + "" == Repeat(',', trailing);
  }

  /** However the tokens are separated and written, an argument parses like the tidy list of its values and words. */
  lemma ParseIgnoresLayout(pieces: seq<Piece>, trailing: nat)
    requires Separated(pieces)
    ensures Printable(Tidy(pieces))
    ensures Parse(Spread(pieces, trailing)) == Parse(Print(Tidy(pieces)))
    ensures Parse(Spread(pieces, trailing)) == UsableIds(Filled(Tidy(pieces), 0), CHANNELS_MAX_NB)
  {
    hide Tidy, Spread, Filled;
    TidyPrintable(pieces);
    ParseUndoesPrint(Tidy(pieces));
    ParseSpreadRest(pieces, trailing, CHANNELS_MAX_NB, 0);
  }

  // ----- every string is such an argument

  lemma {:induction false} SplitLead(s: string) returns (lead: string, rest: string)
    ensures s == lead + rest && White(lead) && (rest == "" || !White(rest[..1]))
  {
    if s == "" || !White(s[..1]) {
      lead, rest := "", s;
    } else {
      lead, rest := SplitLead(s[1..]);
      assert s[..1] == [s[0]] && s[0] in s[..1];
      lead := [s[0]] + lead;
    }
  }

  lemma {:induction false} SplitDigits(s: string) returns (digits: string, tail: string)
    ensures s == digits + tail && (forall c :: c in digits ==> IsDigit(c)) && NoDigitFirst(tail)
  {
    if NoDigitFirst(s) {
      digits, tail := "", s;
    } else {
      digits, tail := SplitDigits(s[1..]);
      assert s == [s[0]] + s[1..];
      digits := [s[0]] + digits;
    }
  }

  /** Every string of digits is some zeros and the numeral of its value. */
  lemma {:induction false} DigitsAreNumeral(s: string) returns (zeros: nat, value: nat)
    requires s != "" && forall c :: c in s ==> IsDigit(c)
    ensures s == Repeat('0', zeros) + Decimal(value)
  {
    hide Decimal;
    var init, c := s[..|s| - 1], s[|s| - 1];
    assert c in s && s == init + [c];
    var d := c as int - '0' as int;
    if init == "" {
      zeros, value := 0, d;
      DecimalDigit(d, c);
    } else {
      var z, v := DigitsAreNumeral(init);
      if v == 0 {
        zeros, value := z + 1, d;
        DecimalDigit(0, '0');
        DecimalDigit(d, c);
        assert Repeat('0', z + 1) == Repeat('0', z) + ['0'];
      } else {
        zeros, value := z, 10 * v + d;
        DecimalSnoc(v, d, c);
      }
    }
  }

  lemma DecimalDigit(d: nat, c: char)
    requires d < 10 && c as int == '0' as int + d
    ensures Decimal(d) == [c]
  {
  }

  lemma DecimalSnoc(v: nat, d: nat, c: char)
    requires v > 0 && d < 10 && c as int == '0' as int + d
    ensures Decimal(10 * v + d) == Decimal(v) + [c]
  {
    assert (10 * v + d) / 10 == v && (10 * v + d) % 10 == d;
  }

  /** What follows the white space and the sign. */
  lemma BodyForm(lead: string, sign: string, body: string) returns (f: Form)
    requires White(lead) && Sign(sign) && ',' !in body
    requires sign == "" ==> body != "" && !White(body[..1]) && body[0] != '+' && body[0] != '-'
    ensures FormOk(f) && TextOfForm(f) == lead + (sign + body)
  {
    hide Decimal, White;
    var digits, tail := SplitDigits(body);
    assert forall c :: c in tail ==> c in body;
    if digits == "" {
      assert body == tail;
      f := Text(lead, sign, tail);
    } else {
      var zeros, value := DigitsAreNumeral(digits);
      f := Numeral(lead, sign, zeros, value, tail);
    }
  }

  lemma TokenForm(s: string) returns (f: Form)
    requires s != "" && ',' !in s
    ensures FormOk(f) && TextOfForm(f) == s
  {
    hide White;
    var lead, rest := SplitLead(s);
    if rest == "" {
      f := Blank(lead);
      assert lead + rest == lead;
    } else {
      assert forall c :: c in rest ==> c in s;
      if rest[0] == '+' || rest[0] == '-' {
        assert rest == rest[..1] + rest[1..] && forall c :: c in rest[1..] ==> c in rest;
        f := BodyForm(lead, rest[..1], rest[1..]);
      } else {
        assert rest == "" + rest;
        f := BodyForm(lead, "", rest);
      }
    }
  }

  lemma {:induction false} SplitToken(s: string) returns (text: string, rest: string)
    ensures s == text + rest && ',' !in text && (rest == "" || rest[0] == ',')
  {
    if s == "" || s[0] == ',' {
      text, rest := "", s;
    } else {
      text, rest := SplitToken(s[1..]);
      assert s == [s[0]] + s[1..];
      text := [s[0]] + text;
    }
  }

  lemma {:induction false} SplitCommas(s: string) returns (k: nat, rest: string)
    ensures s == Repeat(',', k) + rest && (rest == "" || rest[0] != ',')
  {
    if s == "" || s[0] != ',' {
      k, rest := 0, s;
    } else {
      var j;
      j, rest := SplitCommas(s[1..]);
      k := j + 1;
      assert s == [s[0]] + s[1..] && Repeat(',', k) == [','] + Repeat(',', j);
    }
  }

  /** Every argument string is some tokens in some layout, so that `ParseIgnoresLayout` speaks of all of them. */
  lemma {:induction false} EveryArgument(argv: string) returns (pieces: seq<Piece>, trailing: nat)
    ensures Separated(pieces) && Spread(pieces, trailing) == argv
    ensures pieces != [] && (argv == "" || argv[0] == ',') ==> pieces[0].commas > 0
    decreases |argv|
  {
    hide FormOk, TextOfForm;
    var k, s := SplitCommas(argv);
    if s == "" {
      pieces, trailing := [], k;
      assert Repeat(',', k) + s == Repeat(',', k);
    } else {
      var text, rest := SplitToken(s);
      var f := TokenForm(text);
      var tail;
      tail, trailing := EveryArgument(rest);
      pieces := [Piece(k, f)] + tail;
      assert pieces[1..] == tail;
      assert forall i :: 0 < i < |pieces| ==> pieces[i] == tail[i - 1];
    }
  }

  /** The argument `,1,, 3x,` selects the channels 1 and 3. */
  lemma LayoutExample()
    ensures Parse(",1,, 3x,") == [0, 2]
  {
    hide Parse, ParseRest, UsableIds;
    var pieces := [Piece(1, Numeral("", "", 0, 1, "")), Piece(2, Numeral(" ", "", 0, 3, "x"))];
    LayoutText(pieces[0], pieces[1]);
    ParseIgnoresLayout(pieces, 1);
    assert pieces[1..] == [pieces[1]];
    LayoutValues(pieces);
  }

  lemma LayoutText(p: Piece, q: Piece)
    requires p == Piece(1, Numeral("", "", 0, 1, "")) && q == Piece(2, Numeral(" ", "", 0, 3, "x"))
    ensures Spread([p, q], 1) == ",1,, 3x,"
  {
    assert Decimal(1) == "1" && Decimal(3) == "3";
    assert Repeat('0', 0) == "" && Repeat(',', 1) == "," && Repeat(',', 2) == ",,";
    assert TextOfForm(p.form) == "1" && TextOfForm(q.form) == " 3x";
    assert Spread([], 1) == ",";
    assert [q][1..] == [] && Spread([q], 1) == ",, 3x,";
    assert [p, q][1..] == [q];
  }

  lemma TidyNumeral(p: Piece, tail: seq<Piece>)
    requires p.form.Numeral? && p.form.sign == ""
    ensures Tidy([p] + tail) == [Id(p.form.value)] + Tidy(tail) && Tidy([]) == []
  {
    hide TextOfForm;
    assert ([p] + tail)[1..] == tail;
  }

  lemma LayoutValues(pieces: seq<Piece>)
    requires pieces == [Piece(1, Numeral("", "", 0, 1, "")), Piece(2, Numeral(" ", "", 0, 3, "x"))]
    ensures UsableIds(Filled(Tidy(pieces), 0), CHANNELS_MAX_NB) == [0, 2]
  {
    assert pieces == [pieces[0]] + [pieces[1]] && [pieces[1]] == [pieces[1]] + [];
    TidyNumeral(pieces[1], []);
    TidyNumeral(pieces[0], [pieces[1]]);
    assert Tidy(pieces) == [Id(1)] + [Id(3)];
    assert [Id(1), Id(3)][1..] == [Id(3)] && [Id(3)][1..] == [];
    assert Filled([Id(3)], 1) == [3] && Filled([Id(1), Id(3)], 0) == [1, 3];
    UsableAll([1, 3], CHANNELS_MAX_NB);
    var r := UsableIds([1, 3], CHANNELS_MAX_NB);
    assert r[0] as nat + 1 == 1 && r[1] as nat + 1 == 3;
  }
}
