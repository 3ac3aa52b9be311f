/** The `--channels` option: a comma-separated list of channel ids from 1 to 256. */
module ChannelList {
  import opened Bytes
  import opened Protocol

  // ----- the C library functions that the parser calls

  datatype Tok = NoToken | Token(text: string, rest: string)

  function SkipCommas(s: string): string {
    if s != "" && s[0] == ',' then SkipCommas(s[1..]) else s
  }

  function TokenLength(s: string): (n: nat)
    ensures n <= |s|
  {
    if s == "" || s[0] == ',' then 0 else 1 + TokenLength(s[1..])
  }

  /** `strtok` with the separator `,`, section 7.21.5.8 of ISO C99: the next token and what is left behind it. */
  function StrTok(s: string): (t: Tok)
    ensures t.Token? ==> |t.rest| < |s|
  {
    var u := SkipCommas(s);
    SkippedLength(s);
    if u == "" then NoToken
    else
      var n := TokenLength(u);
      Token(u[..n], if n < |u| then u[n + 1..] else "")
  }

  lemma SkippedLength(s: string)
    ensures |SkipCommas(s)| <= |s|
    ensures SkipCommas(s) != "" ==> SkipCommas(s)[0] != ','
  {
  }

  /** The result of converting a token with `%u`. */
  datatype Scan = EndOfInput | NoMatch | Number(value: nat)

  predicate IsSpace(c: char) {
    c == ' ' || '\t' <= c <= '\r'
  }

  predicate IsDigit(c: char) {
    '0' <= c <= '9'
  }

  function SkipSpace(s: string): string {
    if s != "" && IsSpace(s[0]) then SkipSpace(s[1..]) else s
  }

  function DigitPrefix(s: string): string {
    if s != "" && IsDigit(s[0]) then [s[0]] + DigitPrefix(s[1..]) else ""
  }

  function DigitsValue(s: string): nat
    requires forall c :: c in s ==> IsDigit(c)
  {
    if s == "" then 0
    else
      assert IsDigit(s[|s| - 1]) by { assert s[|s| - 1] in s; }
      10 * DigitsValue(s[..|s| - 1]) + (s[|s| - 1] as int - '0' as int)
  }

  lemma DigitPrefixDigits(s: string)
    ensures forall c :: c in DigitPrefix(s) ==> IsDigit(c)
  {
  }

  /** `sscanf(token, "%u", ...)`, section 7.19.6.7 of ISO C99; a minus sign negates in the unsigned type. */
  function ScanUnsigned(token: string): Scan {
    var s := SkipSpace(token);
    if s == "" then EndOfInput
    else
      var minus, signed := s[0] == '-', s[0] == '-' || s[0] == '+';
      var digits := DigitPrefix(if signed then s[1..] else s);
      DigitPrefixDigits(if signed then s[1..] else s);
      if digits == "" then NoMatch
      else if minus then Number((TWO_32 - DigitsValue(digits) % TWO_32) % TWO_32)
      else Number(DigitsValue(digits))
  }

  // ----- the parser

  /** The channels that the loop still adds: `room` entries are free and `chan` holds the last converted value. */
  function ParseRest(t: Tok, room: nat, chan: nat): (r: seq<byte>)
    ensures |r| <= room
    decreases if t.Token? then |t.rest| + 1 else 0
  {
    if room == 0 || t.NoToken? then []
    else
      var scan := ScanUnsigned(t.text);
      var value := if scan.Number? then scan.value else chan;
      if scan.EndOfInput? || value > CHANNELS_MAX_NB || value < 1 then []
      else [ToByte(value - 1)] + ParseRest(StrTok(t.rest), room - 1, value)
  }

  /** One converted token. */
  lemma ParseOne(t: Tok, room: nat, chan: nat, scan: Scan, value: nat)
    requires t.Token? && room > 0 && scan == ScanUnsigned(t.text) && !scan.EndOfInput?
    requires value == if scan.Number? then scan.value else chan
    ensures ParseRest(t, room, chan)
         == if 1 <= value <= CHANNELS_MAX_NB
            then [ToByte(value - 1)] + ParseRest(StrTok(t.rest), room - 1, value)
            else []
  {
    hide StrTok, ScanUnsigned;
  }

  lemma StopsAtBlank(t: Tok, room: nat, chan: nat)
    requires t.Token? && ScanUnsigned(t.text).EndOfInput?
    ensures ParseRest(t, room, chan) == []
  {
  }

  lemma ParseFull(t: Tok, room: nat, chan: nat)
    requires room == 0 || t.NoToken?
    ensures ParseRest(t, room, chan) == []
  {
  }

  function Parse(argv: string): (r: seq<byte>)
    ensures |r| <= CHANNELS_MAX_NB
  {
    ParseRest(StrTok(argv), CHANNELS_MAX_NB, 0)
  }

  /** `audio_parse_map_config` */
  method ParseMapConfig(argv: string) returns (channels: seq<byte>)
    ensures channels == Parse(argv)
  {
    hide StrTok, ScanUnsigned, ParseRest;
    channels := [];
    var chan: nat, token := 0, StrTok(argv);
    while |channels| < CHANNELS_MAX_NB && token.Token?
      invariant |channels| <= CHANNELS_MAX_NB
      invariant channels + ParseRest(token, CHANNELS_MAX_NB - |channels|, chan) == Parse(argv)
      decreases CHANNELS_MAX_NB - |channels|
    {
      var scan := ScanUnsigned(token.text);
      if scan.EndOfInput? {
        StopsAtBlank(token, CHANNELS_MAX_NB - |channels|, chan);
        break;
      }
      ghost var was, room := chan, CHANNELS_MAX_NB - |channels|;
      if scan.Number? {
        chan := scan.value;
      }
      ParseOne(token, room, was, scan, chan);
      if chan > CHANNELS_MAX_NB || chan < 1 {
        break;
      }
      channels := channels + [ToByte(chan - 1)];
      token := StrTok(token.rest);
    }
    if |channels| == CHANNELS_MAX_NB || token.NoToken? {
      ParseFull(token, CHANNELS_MAX_NB - |channels|, chan);
    }
  }

  // ----- printing a list

  function Decimal(n: nat): (s: string)
    ensures s != "" && forall c :: c in s ==> IsDigit(c)
  {
    (if n < 10 then "" else Decimal(n / 10)) + ['0' + (n % 10) as char]
  }

  /** An entry of a list: a numeral, or a token that does not start with a number. */
  datatype Item = Id(value: nat) | Word(text: string)

  predicate IsWord(text: string) {
    text != "" && ',' !in text && ScanUnsigned(text).NoMatch?
  }

  predicate Printable(items: seq<Item>) {
    forall i :: 0 <= i < |items| && items[i].Word? ==> IsWord(items[i].text)
  }

  function TextOf(item: Item): string {
    match item
    case Id(value) => Decimal(value)
    case Word(text) => text
  }

  /** The entries separated by commas. */
  function Print(items: seq<Item>): string {
    if items == [] then ""
    else TextOf(items[0]) + if |items| == 1 then "" else "," + Print(items[1..])
  }

  /** The numerals of a list. */
  function Ids(items: seq<Item>): seq<nat> {
    if items == [] then []
    else (if items[0].Id? then [items[0].value] else []) + Ids(items[1..])
  }

  /** Every word read as the numeral before it, and as `last` before the first numeral. */
  function Filled(items: seq<Item>, last: nat): seq<nat> {
    if items == [] then []
    else
      var value := if items[0].Id? then items[0].value else last;
      [value] + Filled(items[1..], value)
  }

  predicate ValidId(id: nat) {
    1 <= id <= CHANNELS_MAX_NB
  }

  /** The ids up to the first that is out of range, at most `room` of them, each minus one. */
  function UsableIds(ids: seq<nat>, room: nat): (r: seq<byte>)
    ensures |r| <= room
  {
    if ids == [] || room == 0 || !ValidId(ids[0]) then []
    else [ToByte(ids[0] - 1)] + UsableIds(ids[1..], room - 1)
  }

  // ----- what is parsed from a printed list

  lemma {:induction false} DecimalValue(n: nat)
    ensures DigitsValue(Decimal(n)) == n
  {
    if n >= 10 {
      DecimalValue(n / 10);
    }
    var d := Decimal(n);
    assert d[..|d| - 1] == if n < 10 then "" else Decimal(n / 10);
  }

  lemma {:induction false} DigitsAreTheirPrefix(s: string)
    requires forall c :: c in s ==> IsDigit(c)
    ensures DigitPrefix(s) == s
  {
    if s != "" {
      DigitsAreTheirPrefix(s[1..]);
    }
  }

  lemma ScanDecimal(n: nat)
    ensures ScanUnsigned(Decimal(n)) == Number(n)
  {
    var s := Decimal(n);
    assert s[0] in s;
    DigitsAreTheirPrefix(s);
    DecimalValue(n);
  }

  lemma {:induction false} FirstToken(s: string, rest: string)
    requires ',' !in s
    requires rest == "" || rest[0] == ','
    ensures TokenLength(s + rest) == |s|
  {
    if s != "" {
      assert s[0] in s;
      assert (s + rest)[1..] == s[1..] + rest;
      FirstToken(s[1..], rest);
    } else {
      assert s + rest == rest;
    }
  }

  lemma TextIsToken(item: Item)
    requires item.Word? ==> IsWord(item.text)
    ensures TextOf(item) != "" && ',' !in TextOf(item)
  {
    if item.Id? {
      assert !IsDigit(',');
    }
  }

  lemma TokenOf(d: string, rest: string)
    requires d != "" && ',' !in d
    ensures StrTok(d) == Token(d, "") && StrTok(d + ("," + rest)) == Token(d, rest)
  {
    var l := d + ("," + rest);
    assert d[0] in d;
    FirstToken(d, "");
    FirstToken(d, "," + rest);
    assert d + "" == d && SkipCommas(d) == d && SkipCommas(l) == l;
    assert l[..|d|] == d && l[|d| + 1..] == rest;
  }

  lemma PrintFirst(items: seq<Item>)
    requires items != []
    ensures |items| == 1 ==> Print(items) == TextOf(items[0]) && items[1..] == []
    ensures |items| > 1 ==> Print(items) == TextOf(items[0]) + ("," + Print(items[1..]))
  {
    hide TextOf;
    var d := TextOf(items[0]);
    assert d + "" == d;
  }

  lemma PrintedToken(items: seq<Item>)
    requires items != [] && Printable(items)
    ensures StrTok(Print(items)) == Token(TextOf(items[0]), Print(items[1..]))
  {
    hide TextOf, StrTok, IsWord;
    PrintFirst(items);
    TextIsToken(items[0]);
    TokenOf(TextOf(items[0]), Print(items[1..]));
  }

  lemma NothingPrinted()
    ensures StrTok("") == NoToken
  {
    assert SkipCommas("") == "";
  }

  lemma {:induction false} ParsePrinted(items: seq<Item>, room: nat, chan: nat)
    requires Printable(items)
    ensures ParseRest(StrTok(Print(items)), room, chan) == UsableIds(Filled(items, chan), room)
  {
    hide ScanUnsigned, StrTok, Decimal, ParseRest;
    if items == [] || room == 0 {
      NothingPrinted();
      ParseFull(StrTok(Print(items)), room, chan);
    } else {
      var value := if items[0].Id? then items[0].value else chan;
      PrintedToken(items);
      if items[0].Id? {
        ScanDecimal(value);
      }
      ParseOne(StrTok(Print(items)), room, chan, ScanUnsigned(TextOf(items[0])), value);
      ParsePrinted(items[1..], room - 1, value);
    }
  }

  /** Parsing any printed list of numerals and words: each word counts as the numeral before it, a word before the first
      numeral counts as 0, and the result is the part before the first value out of range, 256 at most, minus one. */
  lemma ParseUndoesPrint(items: seq<Item>)
    requires Printable(items)
    ensures Parse(Print(items)) == UsableIds(Filled(items, 0), CHANNELS_MAX_NB)
  {
    ParsePrinted(items, CHANNELS_MAX_NB, 0);
  }

  function Numerals(ids: seq<nat>): (items: seq<Item>)
    ensures |items| == |ids| && Printable(items)
  {
    seq(|ids|, i requires 0 <= i < |ids| => Id(ids[i]))
  }

  lemma {:induction false} FilledNumerals(ids: seq<nat>, last: nat)
    ensures Filled(Numerals(ids), last) == ids
  {
    if ids != [] {
      assert Numerals(ids)[1..] == Numerals(ids[1..]);
      FilledNumerals(ids[1..], ids[0]);
    }
  }

  lemma {:induction false} UsableAll(ids: seq<nat>, room: nat)
    requires forall i :: 0 <= i < |ids| ==> ValidId(ids[i])
    ensures |UsableIds(ids, room)| == if |ids| <= room then |ids| else room
    ensures forall i :: 0 <= i < |UsableIds(ids, room)| ==> UsableIds(ids, room)[i] as nat + 1 == ids[i]
  {
    if ids != [] && room > 0 {
      UsableAll(ids[1..], room - 1);
    }
  }

  /** A list of valid ids comes back whole, up to 256 entries. */
  lemma ValidListRoundTrip(ids: seq<nat>)
    requires forall i :: 0 <= i < |ids| ==> ValidId(ids[i])
    ensures var r := Parse(Print(Numerals(ids)));
            && |r| == (if |ids| <= CHANNELS_MAX_NB then |ids| else CHANNELS_MAX_NB)
            && forall i :: 0 <= i < |r| ==> r[i] as nat + 1 == ids[i]
  {
    ParseUndoesPrint(Numerals(ids));
    FilledNumerals(ids, 0);
    UsableAll(ids, CHANNELS_MAX_NB);
  }

  // ----- words

  lemma {:induction false} FilledWord(before: seq<Item>, id: nat, word: string, after: seq<Item>, last: nat)
    ensures Filled(before + [Id(id)] + [Word(word)] + after, last) == Filled(before + [Id(id)] + [Id(id)] + after, last)
  {
    var l, r := before + [Id(id)] + [Word(word)] + after, before + [Id(id)] + [Id(id)] + after;
    if before == [] {
      assert l[1..] == [Word(word)] + after && r[1..] == [Id(id)] + after;
      assert l[1..][1..] == after && r[1..][1..] == after;
    } else {
      assert l[1..] == before[1..] + [Id(id)] + [Word(word)] + after;
      assert r[1..] == before[1..] + [Id(id)] + [Id(id)] + after;
      FilledWord(before[1..], id, word, after, if before[0].Id? then before[0].value else last);
    }
  }

  /** A word after a numeral is read as that numeral again, and a list that starts with a word is empty. */
  lemma WordRepeatsChannel(before: seq<Item>, id: nat, word: string, after: seq<Item>)
    requires Printable(before) && IsWord(word) && Printable(after)
    ensures Parse(Print(before + [Id(id)] + [Word(word)] + after)) == Parse(Print(before + [Id(id)] + [Id(id)] + after))
    ensures Parse(Print([Word(word)] + after)) == []
  {
    hide Parse, Print;
    ParseUndoesPrint(before + [Id(id)] + [Word(word)] + after);
    ParseUndoesPrint(before + [Id(id)] + [Id(id)] + after);
    ParseUndoesPrint([Word(word)] + after);
    FilledWord(before, id, word, after, 0);
  }

  function Copies(id: nat, k: nat): (r: seq<byte>)
    requires ValidId(id)
    ensures |r| == k
  {
    seq(k, _ => ToByte(id - 1))
  }

  /** `ids` starts with `k` times `id`. */
  predicate StartsWithCopies(ids: seq<nat>, id: nat, k: nat) {
    k <= |ids| && forall i :: 0 <= i < k ==> ids[i] == id
  }

  lemma {:induction false} UsableCopies(ids: seq<nat>, id: nat, room: nat)
    requires ValidId(id)
    ensures UsableIds(ids, room) == Copies(id, room) <==> StartsWithCopies(ids, id, room)
  {
    if ids != [] && room > 0 {
      UsableCopies(ids[1..], id, room - 1);
      assert Copies(id, room) == [ToByte(id - 1)] + Copies(id, room - 1);
      if UsableIds(ids, room) == Copies(id, room) {
        assert UsableIds(ids, room)[1..] == UsableIds(ids[1..], room - 1);
        assert UsableIds(ids, room)[0] == ToByte(id - 1);
      }
      if StartsWithCopies(ids, id, room) {
        assert ids[0] == id;
      }
    }
  }

  lemma CopiesCons(id: nat, k: nat)
    requires ValidId(id)
    ensures Copies(id, k + 1) == [ToByte(id - 1)] + Copies(id, k)
    ensures Copies(id, k + 1) == Copies(id, k) + [ToByte(id - 1)]
  {
  }

  lemma IdsCons(items: seq<Item>)
    requires items != []
    ensures items[0].Word? ==> Ids(items) == Ids(items[1..])
    ensures items[0].Id? ==> Ids(items) == [items[0].value] + Ids(items[1..])
  {
  }

  lemma UsableCons(id: nat, ids: seq<nat>, room: nat)
    requires room > 0
    ensures UsableIds([id] + ids, room) == if ValidId(id) then [ToByte(id - 1)] + UsableIds(ids, room - 1) else []
  {
    assert ([id] + ids)[1..] == ids;
  }

  lemma DropFirstCopy(ids: seq<nat>, id: nat, room: nat)
    requires room > 0 && StartsWithCopies([id] + ids, id, room)
    ensures StartsWithCopies(ids, id, room - 1)
  {
    forall i | 0 <= i < room - 1
      ensures ids[i] == id
    {
      assert ([id] + ids)[i + 1] == ids[i];
    }
  }

  lemma UsableNothing(ids: seq<nat>, room: nat)
    requires ids == [] || room == 0
    ensures UsableIds(ids, room) == []
  {
  }

  lemma NoIds()
    ensures Ids([]) == []
  {
  }

  /** Where the numerals ahead are all `last`, so are the filled values. */
  lemma {:induction false} FilledCopies(items: seq<Item>, room: nat, last: nat, k: nat)
    requires ValidId(last) && k <= room && StartsWithCopies(Ids(items), last, room)
    ensures UsableIds(Filled(items, last), k) == Copies(last, k)
  {
    if k > 0 {
      var rest := items[1..];
      IdsCons(items);
      UsableCons(last, Filled(rest, last), k);
      CopiesCons(last, k - 1);
      if items[0].Id? {
        assert Ids(items)[0] == last;
        DropFirstCopy(Ids(rest), last, room);
        FilledCopies(rest, room - 1, last, k - 1);
      } else {
        FilledCopies(rest, room, last, k - 1);
      }
    }
  }

  /** Behind `k` copies of `last`, the filled list and the numerals agree only by repeating `last` to the end. */
  lemma {:induction false} AgreeByCopies(items: seq<Item>, room: nat, last: nat, k: nat)
    requires ValidId(last) && 1 <= k <= room
    requires Copies(last, k) + UsableIds(Filled(items, last), room - k) == UsableIds(Ids(items), room)
    ensures UsableIds(Ids(items), room) == Copies(last, room)
    decreases |items|
  {
    hide UsableIds, Ids;
    if k == room || items == [] {
      UsableNothing(Filled(items, last), room - k);
    }
    if k == room {
      assert Copies(last, k) + [] == Copies(last, k);
    } else if items == [] {
      NoIds();
      UsableNothing([], room);
      assert false;
    } else {
      var rest := items[1..];
      IdsCons(items);
      if items[0].Word? {
        UsableCons(last, Filled(rest, last), room - k);
        MoveCopy(last, k, UsableIds(Filled(rest, last), room - k - 1));
        AgreeByCopies(rest, room, last, k + 1);
      } else {
        AgreeAtNumeral(items[0].value, Filled(rest, items[0].value), Ids(rest), room, last, k);
        AgreeByCopies(rest, room - 1, last, k);
        CopiesCons(last, room - 1);
      }
    }
  }

  lemma MoveCopy(id: nat, k: nat, tail: seq<byte>)
    requires ValidId(id)
    ensures Copies(id, k) + ([ToByte(id - 1)] + tail) == Copies(id, k + 1) + tail
  {
    CopiesCons(id, k);
    assert Copies(id, k) + ([ToByte(id - 1)] + tail) == (Copies(id, k) + [ToByte(id - 1)]) + tail;
  }

  /** If the next entry is a numeral, it is `last` too, and the agreement goes on behind it. */
  lemma AgreeAtNumeral(id: nat, values: seq<nat>, ids: seq<nat>, room: nat, last: nat, k: nat)
    requires ValidId(last) && 1 <= k < room
    requires Copies(last, k) + UsableIds([id] + values, room - k) == UsableIds([id] + ids, room)
    ensures id == last && Copies(last, k) + UsableIds(values, room - 1 - k) == UsableIds(ids, room - 1)
    ensures UsableIds([id] + ids, room) == [ToByte(last - 1)] + UsableIds(ids, room - 1)
  {
    hide UsableIds;
    UsableCons(id, ids, room);
    UsableCons(id, values, room - k);
    var l, r := Copies(last, k) + UsableIds([id] + values, room - k), UsableIds([id] + ids, room);
    assert l[0] == ToByte(last - 1) && l == r;
    CopiesCons(last, k - 1);
    MoveCopy(last, k - 1, [ToByte(last - 1)] + UsableIds(values, room - 1 - k));
    assert r == [ToByte(last - 1)] + UsableIds(ids, room - 1);
    MoveCopy(last, k, UsableIds(values, room - 1 - k));
    CopiesCons(last, k);
    assert l == [ToByte(last - 1)] + (Copies(last, k) + UsableIds(values, room - 1 - k));
    assert l[1..] == Copies(last, k) + UsableIds(values, room - 1 - k) && r[1..] == UsableIds(ids, room - 1);
  }

  /** Whether words are harmless: they come after the end of the usable list, or before the first numeral when that is
      not usable either, or the numerals that follow repeat the one before the word until the list is full. */
  predicate WordsHarmless(items: seq<Item>, room: nat, last: nat) {
    if items == [] || room == 0 then true
    else if items[0].Id? then ValidId(items[0].value) ==> WordsHarmless(items[1..], room - 1, items[0].value)
    else if ValidId(last) then StartsWithCopies(Ids(items[1..]), last, room)
    else Ids(items[1..]) == [] || !ValidId(Ids(items[1..])[0])
  }

  lemma {:induction false} HarmlessMeaning(items: seq<Item>, room: nat, last: nat)
    ensures UsableIds(Filled(items, last), room) == UsableIds(Ids(items), room) <==> WordsHarmless(items, room, last)
  {
    if items != [] && room > 0 {
      var rest := items[1..];
      IdsCons(items);
      if items[0].Id? {
        HarmlessMeaning(rest, room - 1, items[0].value);
        UsableCons(items[0].value, Ids(rest), room);
        UsableCons(items[0].value, Filled(rest, items[0].value), room);
        SameTail(ToByte(items[0].value - 1), UsableIds(Ids(rest), room - 1),
                 UsableIds(Filled(rest, items[0].value), room - 1));
      } else if ValidId(last) {
        HarmlessWord(rest, room, last);
      }
    }
  }

  lemma SameTail(b: byte, x: seq<byte>, y: seq<byte>)
    ensures [b] + x == [b] + y <==> x == y
  {
    assert ([b] + x)[1..] == x && ([b] + y)[1..] == y;
  }

  lemma HarmlessWord(rest: seq<Item>, room: nat, last: nat)
    requires room > 0 && ValidId(last)
    ensures UsableIds([last] + Filled(rest, last), room) == UsableIds(Ids(rest), room)
       <==> StartsWithCopies(Ids(rest), last, room)
  {
    hide UsableIds, StartsWithCopies, Filled, Ids;
    UsableCopies(Ids(rest), last, room);
    UsableCons(last, Filled(rest, last), room);
    assert Copies(last, 1) == [ToByte(last - 1)];
    if UsableIds([last] + Filled(rest, last), room) == UsableIds(Ids(rest), room) {
      AgreeByCopies(rest, room, last, 1);
    }
    if StartsWithCopies(Ids(rest), last, room) {
      FilledCopies(rest, room, last, room - 1);
      CopiesCons(last, room - 1);
    }
  }

  /** Exactly when words are ignored, so that a list parses to its numerals alone. */
  lemma WordsIgnoredIff(items: seq<Item>)
    requires Printable(items)
    ensures Parse(Print(items)) == UsableIds(Ids(items), CHANNELS_MAX_NB) <==> WordsHarmless(items, CHANNELS_MAX_NB, 0)
  {
    hide Parse, Print;
    ParseUndoesPrint(items);
    HarmlessMeaning(items, CHANNELS_MAX_NB, 0);
  }

  /** The argument `1,x,3` selects the channels 1, 1 and 3, and the argument `x,3` none. */
  lemma WordExample()
    ensures Parse("1,x,3") == [0, 0, 2] && Parse("x,3") == []
  {
    hide Parse, UsableIds;
    var x := Word("x");
    assert SkipSpace("x") == "x" && DigitPrefix("x") == "";
    WordExampleText();
    ParseUndoesPrint([Id(1), x, Id(3)]);
    ParseUndoesPrint([x, Id(3)]);
    WordExampleValues();
  }

  lemma WordExampleText()
    ensures Print([Id(1), Word("x"), Id(3)]) == "1,x,3" && Print([Word("x"), Id(3)]) == "x,3"
  {
    assert Decimal(1) == "1" && Decimal(3) == "3";
    assert Print([Id(3)]) == "3";
    assert [Word("x"), Id(3)][1..] == [Id(3)];
    assert [Id(1), Word("x"), Id(3)][1..] == [Word("x"), Id(3)];
  }

  lemma WordExampleValues()
    ensures UsableIds(Filled([Id(1), Word("x"), Id(3)], 0), CHANNELS_MAX_NB) == [0, 0, 2]
    ensures UsableIds(Filled([Word("x"), Id(3)], 0), CHANNELS_MAX_NB) == []
  {
    FilledNumerals([3], 1);
    assert Numerals([3]) == [Id(3)];
    assert [Id(1), Word("x"), Id(3)][1..] == [Word("x"), Id(3)] && [Word("x"), Id(3)][1..] == [Id(3)];
    assert Filled([Id(1), Word("x"), Id(3)], 0) == [1, 1, 3];
    UsableThree(1, 1, 3, CHANNELS_MAX_NB);
  }

  lemma UsableThree(a: nat, b: nat, c: nat, room: nat)
    requires ValidId(a) && ValidId(b) && ValidId(c) && room >= 3
    ensures UsableIds([a, b, c], room) == [ToByte(a - 1), ToByte(b - 1), ToByte(c - 1)]
  {
    UsableAll([a, b, c], room);
    var r := UsableIds([a, b, c], room);
    assert r[0] as nat + 1 == a && r[1] as nat + 1 == b && r[2] as nat + 1 == c;
  }
}
