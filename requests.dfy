/** The record shapes of the Steam and csgobackpack responses, and the two locale-aware
    field decoders `MarketPrice` is deserialized with. */
module Requests {
  import opened Wrappers
  import opened Numbers

  // ---------------------------------------------------------------------------
  // Records

  /** An item of the csgobackpack catalog (`csgobackpack::MarketItem`). */
  datatype BackpackItem = BackpackItem(itemType: Option<string>, name: string, classid: nat)

  /** One inventory slot (`steam::Asset`). */
  datatype Asset = Asset(appid: nat, assetid: nat, classid: nat, instanceid: nat, amount: nat)

  /** A catalog description of one item class (`steam::MarketItem`). */
  datatype MarketItem = MarketItem(itemType: Option<string>, name: string, classid: nat, iconUrl: string, marketHashName: string)

  /** The inventory endpoint's reply. */
  datatype UserInventoryResponse = UserInventoryResponse(success: nat, totalInventoryCount: nat, assets: seq<Asset>, descriptions: seq<MarketItem>)

  /** One `(date, price, quantity)` entry of a price history. */
  datatype HistoryPoint = HistoryPoint(date: string, price: Float, quantity: string)

  /** The price-history endpoint's reply. */
  datatype PriceHistoryResponse = PriceHistoryResponse(success: bool, pricePrefix: string, priceSuffix: char, prices: seq<HistoryPoint>)

  /** The price-overview endpoint's reply, its prices decoded by `DeserializeEuro` and its
      volume by `DeserializeCommaSeparated`. */
  datatype MarketPrice = MarketPrice(success: bool, medianPrice: Float, volume: nat, lowestPrice: Float)

  // ---------------------------------------------------------------------------
  // deserialize_euro

  /** `s.replace(from, to)` where both are single characters. */
  function ReplaceChar(s: string, from: char, to: char): (r: string)
    ensures |r| == |s|
  {
    if s == [] then [] else [if s[0] == from then to else s[0]] + ReplaceChar(s[1..], from, to)
  }

  /** Every occurrence of `from` is replaced by `to`, and nothing else changes. */
  lemma {:induction false} ReplaceCharAt(s: string, from: char, to: char)
    ensures |ReplaceChar(s, from, to)| == |s|
    ensures forall i :: 0 <= i < |s| ==> ReplaceChar(s, from, to)[i] == if s[i] == from then to else s[i]
  {
    if s != [] {
      ReplaceCharAt(s[1..], from, to);
    }
  }

  /** `String::pop` on a local copy: the last character goes, an empty string stays empty. */
  function Pop(s: string): (r: string)
    ensures |r| == if s == [] then 0 else |s| - 1
    ensures r == s[..|r|]
  {
    if s == [] then s else s[..|s| - 1]
  }

  /** What one character becomes in the euro decoder: a decimal comma turns into a point and a
      dash (the market writes `5,--€` for whole euros) into a zero. */
  function EuroChar(c: char): char {
    if c == ',' then '.' else if c == '-' then '0' else c
  }

  /** The text `deserialize_euro` hands to the parser: the last character (the currency
      symbol) removed, then every `,` replaced by `.` and every `-` by `0`. */
  function NormalizeEuro(s: string): (r: string)
    ensures |r| == if s == [] then 0 else |s| - 1
    ensures forall i :: 0 <= i < |r| ==> r[i] == EuroChar(s[i])
    ensures ',' !in r && '-' !in r
  {
    ReplaceCharAt(Pop(s), ',', '.');
    ReplaceCharAt(ReplaceChar(Pop(s), ',', '.'), '-', '0');
    ReplaceChar(ReplaceChar(Pop(s), ',', '.'), '-', '0')
  }

  /** `deserialize_euro::<f32>` on the string `s`; `None` where its `unwrap` of the parse
      panics. */
  function DeserializeEuro(s: string): (r: Option<Float>)
    ensures r.Some? ==> FloatText(NormalizeEuro(s))
    ensures r.Some? && !r.value.NaN? ==> !r.value.negative
  {
    ParseFloat(NormalizeEuro(s))
  }

  /** The euro text the market shows for `cents` cents: `12,34€`. */
  function FormatEuroCents(cents: nat): string {
    Digits(cents / 100) + "," + [DigitChar(cents / 10 % 10), DigitChar(cents % 10)] + "€"
  }

  /** Digits, a decimal comma, digits and one more character normalise to the fixed-point
      text with a point. */
  lemma {:induction false} NormalizedEuroText(ip: string, fp: string, last: char)
    requires AllDigits(ip) && AllDigits(fp)
    ensures NormalizeEuro(ip + "," + fp + [last]) == ip + "." + fp
  {
  }

  /** Whatever the last character is, it is dropped: digits, a decimal comma, digits and any
      final character decode to the fixed-point number before that character. Without a
      currency symbol the last digit is lost (`12,34` decodes to 12.3). */
  lemma {:induction false} EuroLastCharDropped(ip: string, fp: string, last: char)
    requires AllDigits(ip) && AllDigits(fp) && |ip| + |fp| > 0
    ensures AllDigits(ip + fp)
    ensures DeserializeEuro(ip + "," + fp + [last]) == Some(Finite(false, DigitsValue(ip + fp), -|fp|))
  {
    NormalizedEuroText(ip, fp, last);
    FixedPointParses(ip, fp);
  }

  /** The digits of `cents / 100` followed by the two digits of `cents % 100` are the digits
      of `cents`. */
  lemma {:induction false} CentsDigitsValue(cents: nat)
    ensures AllDigits(Digits(cents / 100) + [DigitChar(cents / 10 % 10), DigitChar(cents % 10)])
    ensures DigitsValue(Digits(cents / 100) + [DigitChar(cents / 10 % 10), DigitChar(cents % 10)]) == cents
  {
    var ip := Digits(cents / 100);
    var fp := [DigitChar(cents / 10 % 10), DigitChar(cents % 10)];
    DigitsValueAppend(ip, fp);
    DigitsRoundTrip(cents / 100);
    TwoDigitsValue(fp[0], fp[1]);
    assert Pow10(|fp|) == 100;
    CentsSplit(cents);
  }

  lemma {:induction false} CentsSplit(cents: nat)
    ensures cents / 100 * 100 + (10 * (cents / 10 % 10) + cents % 10) == cents
  {
  }

  /** Decoding the market's euro text for any amount gives that amount back, in cents. */
  lemma {:induction false} EuroCentsRoundTrip(cents: nat)
    ensures DeserializeEuro(FormatEuroCents(cents)) == Some(Finite(false, cents, -2))
  {
    var ip := Digits(cents / 100);
    var fp := [DigitChar(cents / 10 % 10), DigitChar(cents % 10)];
    assert FormatEuroCents(cents) == ip + "," + fp + ['€'];
    EuroLastCharDropped(ip, fp, '€');
    CentsDigitsValue(cents);
  }

  lemma {:induction false} TwoDigitsValue(a: char, b: char)
    requires IsDigit(a) && IsDigit(b)
    ensures DigitsValue([a, b]) == 10 * DigitValue(a) + DigitValue(b)
  {
    assert [a, b][..1] == [a];
    assert [a][..0] == [];
    assert DigitsValue([a]) == DigitValue(a);
  }

  /** Digits of `n` followed by two zeros are the digits of `100 * n`. */
  lemma {:induction false} HundredsDigitsValue(n: nat)
    ensures AllDigits(Digits(n) + "00")
    ensures DigitsValue(Digits(n) + "00") == 100 * n
  {
    var ip := Digits(n);
    AllDigitsConcat(ip, "00");
    DigitsValueAppend(ip, "00");
    DigitsRoundTrip(n);
    TwoDigitsValue('0', '0');
  }

  /** The dashes of the whole-euro text `N,--€` become the fraction digits `00`, so the
      text decodes as the fixed-point text `N.00`. */
  lemma {:induction false} NormalizedWholeUnits(ip: string)
    requires AllDigits(ip)
    ensures NormalizeEuro(ip + ",--€") == ip + ".00"
    ensures DeserializeEuro(ip + ",--€") == ParseFloat(ip + "." + "00")
  {
    assert ip + ".00" == ip + "." + "00";
  }

  /** The market's whole-euro text `N,--€` decodes to `N` euros (`N * 100` cents). */
  lemma {:induction false} EuroWholeUnits(n: nat)
    ensures DeserializeEuro(Digits(n) + ",--€") == Some(Finite(false, 100 * n, -2))
  {
    var ip := Digits(n);
    NormalizedWholeUnits(ip);
    FixedPointParses(ip, "00");
    HundredsDigitsValue(n);
  }

  /** A lone dash (no price data) decodes to zero. */
  lemma {:induction false} EuroDashIsZero()
    ensures DeserializeEuro("-€") == Some(Finite(false, 0, 0))
  {
  }

  /** `12,34€` decodes to 12.34. */
  lemma {:induction false} EuroDecimalComma()
    ensures DeserializeEuro("12,34€") == Some(Finite(false, 1234, -2))
  {
    assert Digits(12) == "12";
    assert FormatEuroCents(1234) == "12,34€";
    EuroCentsRoundTrip(1234);
  }

  /** Replacing `from` by `to` adds the number of `from`s to the number of `to`s. */
  lemma {:induction false} ReplaceCharCountTarget(s: string, from: char, to: char)
    requires from != to
    ensures multiset(ReplaceChar(s, from, to))[to] == multiset(s)[to] + multiset(s)[from]
  {
    if s != [] {
      ReplaceCharCountTarget(s[1..], from, to);
      assert s == [s[0]] + s[1..];
    }
  }

  /** Replacing `from` by `to` leaves the number of every other character as it is. */
  lemma {:induction false} ReplaceCharCountOther(s: string, from: char, to: char, c: char)
    requires c != from && c != to
    ensures multiset(ReplaceChar(s, from, to))[c] == multiset(s)[c]
  {
    if s != [] {
      ReplaceCharCountOther(s[1..], from, to, c);
      assert s == [s[0]] + s[1..];
    }
  }

  /** A price written with both a thousands separator and a decimal separator, such as
      `1.234,56$`, has two points once normalised, and the parse fails (the decoder panics). */
  lemma {:induction false} EuroRejectsTwoSeparators(s: string)
    requires multiset(Pop(s))['.'] + multiset(Pop(s))[','] >= 2
    ensures DeserializeEuro(s) == None
  {
    var once := ReplaceChar(Pop(s), ',', '.');
    ReplaceCharCountTarget(Pop(s), ',', '.');
    ReplaceCharCountOther(once, '-', '0', '.');
    ParseFloatRejects(NormalizeEuro(s));
  }

  /** In particular a price with a thousands point and a decimal comma (`1.234,56$`) fails. */
  lemma {:induction false} EuroRejectsGroupedThousands(a: string, b: string, c: string, last: char)
    ensures DeserializeEuro(a + "." + b + "," + c + [last]) == None
  {
    var s := a + "." + b + "," + c + [last];
    var body := a + "." + b + "," + c;
    assert Pop(s) == body;
    assert body == (a + ".") + (b + "," + c);
    assert multiset(body)['.'] >= 1 by {
      assert multiset(body) == multiset(a + ".") + multiset(b + "," + c);
      assert multiset(a + ".") == multiset(a) + multiset{'.'};
    }
    assert multiset(body)[','] >= 1 by {
      assert body == (a + "." + b) + ("," + c);
      assert multiset(body) == multiset(a + "." + b) + multiset("," + c);
      assert multiset("," + c) == multiset{','} + multiset(c);
    }
    EuroRejectsTwoSeparators(s);
  }

  // ---------------------------------------------------------------------------
  // deserialize_comma_separated

  /** `s.replace(',', "")`. */
  function RemoveCommas(s: string): (r: string)
    ensures ',' !in r
    ensures |r| <= |s|
  {
    if s == [] then []
    else (if s[0] == ',' then [] else [s[0]]) + RemoveCommas(s[1..])
  }

  /** Removing commas works piece by piece, so the other characters keep their order. */
  lemma {:induction false} RemoveCommasAppend(a: string, b: string)
    ensures RemoveCommas(a + b) == RemoveCommas(a) + RemoveCommas(b)
  {
    if a == [] {
      assert a + b == b;
    } else {
      assert (a + b)[1..] == a[1..] + b;
      RemoveCommasAppend(a[1..], b);
    }
  }

  /** A single comma between two texts is dropped. */
  lemma {:induction false} CommaDropped(a: string, b: string)
    ensures RemoveCommas(a + "," + b) == RemoveCommas(a + b)
  {
    assert ","[1..] == [];
    assert RemoveCommas(",") == [];
    RemoveCommasAppend(a + ",", b);
    RemoveCommasAppend(a, ",");
    RemoveCommasAppend(a, b);
    assert RemoveCommas(a) + [] == RemoveCommas(a);
  }

  /** Text without commas is left as it is. */
  lemma {:induction false} RemoveCommasNone(s: string)
    requires ',' !in s
    ensures RemoveCommas(s) == s
  {
    if s != [] {
      RemoveCommasNone(s[1..]);
    }
  }

  /** Digits hold no comma, so comma removal leaves them as they are. */
  lemma {:induction false} DigitsKeepCommas(s: string)
    ensures AllDigits(s) ==> RemoveCommas(s) == s
  {
    if AllDigits(s) {
      assert forall i :: 0 <= i < |s| ==> s[i] != ',';
      RemoveCommasNone(s);
    }
  }

  /** `deserialize_comma_separated::<usize>` on the string `s`; `None` where its `unwrap` of
      the parse panics. */
  function DeserializeCommaSeparated(s: string): (r: Option<nat>)
    ensures r.Some? ==> r.value < USIZE_LIMIT
    ensures s != [] && AllDigits(s) && DigitsValue(s) < USIZE_LIMIT ==> r == Some(DigitsValue(s))
  {
    DigitsKeepCommas(s);
    ParseUsize(RemoveCommas(s))
  }

  /** Digits grouped the way the market writes a volume: a comma before each group of three
      digits counted from the right (`1,234,567`). */
  function GroupThousands(d: string): string {
    if |d| <= 3 then d else GroupThousands(d[..|d| - 3]) + "," + d[|d| - 3..]
  }

  lemma {:induction false} GroupThousandsUngroups(d: string)
    requires ',' !in d
    ensures RemoveCommas(GroupThousands(d)) == d
  {
    if |d| <= 3 {
      RemoveCommasNone(d);
    } else {
      var hi, lo := d[..|d| - 3], d[|d| - 3..];
      assert d == hi + lo;
      assert ',' !in hi && ',' !in lo;
      GroupThousandsUngroups(hi);
      CommaDropped(GroupThousands(hi), lo);
      RemoveCommasAppend(GroupThousands(hi), lo);
      RemoveCommasNone(lo);
    }
  }

  /** Commas are dropped wherever they stand: any text that is the digits of `n` with commas
      inserted anywhere (between, before or after digits, several in a row) decodes to `n`. */
  lemma {:induction false} CommaSeparatedAnyCommas(n: nat, t: string)
    requires n < USIZE_LIMIT
    requires RemoveCommas(t) == Digits(n)
    ensures DeserializeCommaSeparated(t) == Some(n)
  {
    ParseUsizeRoundTrip(n);
  }

  /** Every `usize` volume, written with digit groups, decodes back to itself. */
  lemma {:induction false} CommaSeparatedRoundTrip(n: nat)
    requires n < USIZE_LIMIT
    ensures DeserializeCommaSeparated(GroupThousands(Digits(n))) == Some(n)
  {
    var d := Digits(n);
    assert ',' !in d by {
      forall i | 0 <= i < |d| ensures d[i] != ',' { assert IsDigit(d[i]); }
    }
    GroupThousandsUngroups(d);
    CommaSeparatedAnyCommas(n, GroupThousands(d));
  }

  /** A volume beyond `usize` fails to parse (the decoder panics). */
  lemma {:induction false} CommaSeparatedOverflow(n: nat)
    requires n >= USIZE_LIMIT
    ensures DeserializeCommaSeparated(GroupThousands(Digits(n))) == None
  {
    var d := Digits(n);
    assert ',' !in d by {
      forall i | 0 <= i < |d| ensures d[i] != ',' { assert IsDigit(d[i]); }
    }
    GroupThousandsUngroups(d);
    ParseUsizeOverflow(n);
  }

  /** Comma positions are not checked: a comma anywhere (`1,2,3`, `12,,3`) is dropped as if
      it were not there. */
  lemma {:induction false} CommaSeparatedIgnoresComma(a: string, b: string)
    ensures DeserializeCommaSeparated(a + "," + b) == DeserializeCommaSeparated(a + b)
  {
    CommaDropped(a, b);
  }

  // ---------------------------------------------------------------------------
  // MarketPrice

  /** A JSON value as the derived deserializer of `MarketPrice` meets it: a string (escapes
      resolved), a boolean, or any other value. A value whose text is not valid JSON is also
      `OtherValue` when a price or volume decoder reads it: `String::deserialize` fails, and
      the decoder's `unwrap` panics on that as on any other non-string. */
  datatype JsonValue = JsonString(text: string) | JsonBool(b: bool) | OtherValue

  /** A reply body that opens a JSON object: its members in the order the reply lists them,
      each name identified as a `FieldId`, and whether the text after the last of them closes the object and ends the body
      (`closed == false` is a syntax error or trailing characters met after those members). */
  datatype JsonObject = JsonObject(members: seq<(FieldId, JsonValue)>, closed: bool)

  /** A member name as the derived deserializer identifies it: exactly the names
      `"success"`, `"median_price"`, `"volume"` and `"lowest_price"` select the four fields
      of `MarketPrice`; every other name is ignored. */
  datatype FieldId = Success | MedianPrice | Volume | LowestPrice | Ignored

  /** The fields of a `MarketPrice` a deserialization has filled so far. */
  datatype Fields = Fields(success: Option<bool>, medianPrice: Option<Float>, volume: Option<nat>, lowestPrice: Option<Float>)

  /** `deserialize_euro` on a member's value; `None` where it panics. */
  function EuroField(v: JsonValue): Option<Float> {
    if v.JsonString? then DeserializeEuro(v.text) else None
  }

  /** `deserialize_comma_separated` on a member's value; `None` where it panics. */
  function VolumeField(v: JsonValue): Option<nat> {
    if v.JsonString? then DeserializeCommaSeparated(v.text) else None
  }

  predicate IsField(key: FieldId) {
    !key.Ignored?
  }

  /** The fields whose values go through a decoder that panics. */
  predicate IsDecodedField(key: FieldId) {
    key == MedianPrice || key == Volume || key == LowestPrice
  }

  /** How many members are named `key`. */
  function KeyCount(ms: seq<(FieldId, JsonValue)>, key: FieldId): nat {
    if ms == [] then 0 else KeyCount(ms[..|ms| - 1], key) + if ms[|ms| - 1].0 == key then 1 else 0
  }

  /** The value of the last member named `key`. */
  function Find(ms: seq<(FieldId, JsonValue)>, key: FieldId): Option<JsonValue> {
    if ms == [] then None
    else if ms[|ms| - 1].0 == key then Some(ms[|ms| - 1].1)
    else Find(ms[..|ms| - 1], key)
  }

  /** The value of member `m` has the type its field needs and decodes. */
  predicate FieldAccepts(m: (FieldId, JsonValue)) {
    if m.0 == Success then m.1.JsonBool?
    else if m.0 == MedianPrice || m.0 == LowestPrice then EuroField(m.1).Some?
    else if m.0 == Volume then VolumeField(m.1).Some?
    else true
  }

  /** Member `m`, met after the members `seen`, is taken without error: it is not a field
      (and is skipped), or it is the first member of its field and its value is accepted. */
  predicate MemberAccepted(seen: seq<(FieldId, JsonValue)>, m: (FieldId, JsonValue)) {
    !IsField(m.0) || (KeyCount(seen, m.0) == 0 && FieldAccepts(m))
  }

  /** Member `m`, met after the members `seen`, panics: it is the first price or volume
      member and its decoder cannot decode its value. */
  predicate PanicsAt(seen: seq<(FieldId, JsonValue)>, m: (FieldId, JsonValue)) {
    IsDecodedField(m.0) && KeyCount(seen, m.0) == 0 && !FieldAccepts(m)
  }

  /** Every member is taken without error after the members before it. */
  predicate CleanMembers(ms: seq<(FieldId, JsonValue)>) {
    ms == [] || (CleanMembers(ms[..|ms| - 1]) && MemberAccepted(ms[..|ms| - 1], ms[|ms| - 1]))
  }

  /** Every field of `MarketPrice` has a member. */
  predicate Complete(ms: seq<(FieldId, JsonValue)>) {
    KeyCount(ms, Success) > 0 && KeyCount(ms, MedianPrice) > 0 && KeyCount(ms, Volume) > 0 && KeyCount(ms, LowestPrice) > 0
  }

  /** The decoded values of the fields found among `ms`. */
  function FoundFields(ms: seq<(FieldId, JsonValue)>): Fields {
    var success := Find(ms, Success);
    var median := Find(ms, MedianPrice);
    var volume := Find(ms, Volume);
    var lowest := Find(ms, LowestPrice);
    Fields(
      if success.Some? && success.value.JsonBool? then Some(success.value.b) else None,
      if median.Some? then EuroField(median.value) else None,
      if volume.Some? then VolumeField(volume.value) else None,
      if lowest.Some? then EuroField(lowest.value) else None)
  }

  lemma {:induction false} FindCount(ms: seq<(FieldId, JsonValue)>, key: FieldId)
    ensures Find(ms, key).Some? <==> KeyCount(ms, key) > 0
  {
    if ms != [] {
      FindCount(ms[..|ms| - 1], key);
    }
  }

  /** The members before a clean list's last member are clean too. */
  lemma {:induction false} CleanPrefix(p: seq<(FieldId, JsonValue)>, m: (FieldId, JsonValue))
    ensures CleanMembers(p + [m]) <==> CleanMembers(p) && MemberAccepted(p, m)
  {
    assert (p + [m])[..|p|] == p;
  }

  /** A member added at the end counts once more for its own name and becomes the value
      found for that name. */
  lemma {:induction false} AppendMember(p: seq<(FieldId, JsonValue)>, m: (FieldId, JsonValue), key: FieldId)
    ensures KeyCount(p + [m], key) == KeyCount(p, key) + if m.0 == key then 1 else 0
    ensures Find(p + [m], key) == if m.0 == key then Some(m.1) else Find(p, key)
  {
    assert (p + [m])[..|p|] == p;
  }

  /** In clean members, the value found for a field is accepted by that field. */
  lemma {:induction false} FindAccepted(ms: seq<(FieldId, JsonValue)>, key: FieldId)
    requires CleanMembers(ms) && IsField(key) && Find(ms, key).Some?
    ensures FieldAccepts((key, Find(ms, key).value))
  {
    var p, m := ms[..|ms| - 1], ms[|ms| - 1];
    assert ms == p + [m];
    CleanPrefix(p, m);
    if m.0 != key {
      FindAccepted(p, key);
    }
  }

  /** In clean members, a field has a decoded value exactly when it has a member. */
  lemma {:induction false} FoundFieldsPresent(ms: seq<(FieldId, JsonValue)>)
    requires CleanMembers(ms)
    ensures FoundFields(ms).success.Some? <==> KeyCount(ms, Success) > 0
    ensures FoundFields(ms).medianPrice.Some? <==> KeyCount(ms, MedianPrice) > 0
    ensures FoundFields(ms).volume.Some? <==> KeyCount(ms, Volume) > 0
    ensures FoundFields(ms).lowestPrice.Some? <==> KeyCount(ms, LowestPrice) > 0
  {
    FindCount(ms, Success);
    FindCount(ms, MedianPrice);
    FindCount(ms, Volume);
    FindCount(ms, LowestPrice);
    if Find(ms, Success).Some? { FindAccepted(ms, Success); }
    if Find(ms, MedianPrice).Some? { FindAccepted(ms, MedianPrice); }
    if Find(ms, Volume).Some? { FindAccepted(ms, Volume); }
    if Find(ms, LowestPrice).Some? { FindAccepted(ms, LowestPrice); }
  }

  /** One member of the object, as the derived visitor handles it. A field met a second time
      is serde's duplicate-field error, checked before its value is read; `success` takes a
      boolean and gives an invalid-type error otherwise; the price and volume members go
      through their decoders, which panic on a value they cannot decode. Other members are
      skipped. `Returned(None)` is a serde error. */
  function DecodeMember(acc: Fields, m: (FieldId, JsonValue)): Outcome<Option<Fields>> {
    var (key, v) := m;
    if key == Success then
      if acc.success.Some? || !v.JsonBool? then Returned(None)
      else Returned(Some(acc.(success := Some(v.b))))
    else if key == MedianPrice then
      if acc.medianPrice.Some? then Returned(None)
      else match EuroField(v)
        case None => Panicked
        case Some(f) => Returned(Some(acc.(medianPrice := Some(f))))
    else if key == Volume then
      if acc.volume.Some? then Returned(None)
      else match VolumeField(v)
        case None => Panicked
        case Some(n) => Returned(Some(acc.(volume := Some(n))))
    else if key == LowestPrice then
      if acc.lowestPrice.Some? then Returned(None)
      else match EuroField(v)
        case None => Panicked
        case Some(f) => Returned(Some(acc.(lowestPrice := Some(f))))
    else Returned(Some(acc))
  }

  /** After clean members, the next member panics, is taken, or is a serde error, exactly as
      `PanicsAt` and `MemberAccepted` say, and a taken member adds its decoded value. */
  lemma {:induction false} DecodeMemberStep(p: seq<(FieldId, JsonValue)>, m: (FieldId, JsonValue))
    requires CleanMembers(p)
    ensures DecodeMember(FoundFields(p), m) ==
      if PanicsAt(p, m) then Panicked
      else if MemberAccepted(p, m) then Returned(Some(FoundFields(p + [m])))
      else Returned(None)
  {
    FoundFieldsPresent(p);
    AppendMember(p, m, Success);
    AppendMember(p, m, MedianPrice);
    AppendMember(p, m, Volume);
    AppendMember(p, m, LowestPrice);
    var acc, after := FoundFields(p), FoundFields(p + [m]);
    match m.0
    case Success =>
      assert after == acc.(success := if m.1.JsonBool? then Some(m.1.b) else None);
    case MedianPrice =>
      assert after == acc.(medianPrice := EuroField(m.1));
    case Volume =>
      assert after == acc.(volume := VolumeField(m.1));
    case LowestPrice =>
      assert after == acc.(lowestPrice := EuroField(m.1));
    case Ignored =>
      assert after == acc;
  }

  /** The members decoded in the order the reply lists them: decoding stops at the first
      panic or serde error. It is clean exactly when every member is taken, and it panics
      exactly when some member panics after members that were all taken. */
  function DecodeMembers(ms: seq<(FieldId, JsonValue)>): (r: Outcome<Option<Fields>>)
    ensures r.Returned? && r.value.Some? <==> CleanMembers(ms)
    ensures r.Returned? && r.value.Some? ==> r.value.value == FoundFields(ms)
    ensures r.Panicked? <==> exists i :: 0 <= i < |ms| && CleanMembers(ms[..i]) && PanicsAt(ms[..i], ms[i])
  {
    if ms == [] then Returned(Some(Fields(None, None, None, None)))
    else
      var p, m := ms[..|ms| - 1], ms[|ms| - 1];
      assert ms == p + [m];
      CleanPrefix(p, m);
      assert forall i :: 0 <= i < |p| ==> ms[..i] == p[..i] && ms[i] == p[i];
      match DecodeMembers(p)
      case Panicked => Panicked
      case Returned(None) => Returned(None)
      case Returned(Some(acc)) =>
        DecodeMemberStep(p, m);
        DecodeMember(acc, m)
  }

  /** `serde_json::from_str::<MarketPrice>` on a body that opens an object. The members are
      decoded in reply order, so a price or volume that does not decode panics even when a
      later member, a missing field or a syntax error after it would have been a serde
      error (`Returned(None)`). A result needs a closed object, clean members and a member
      for every field, and holds the decoded values of those members. */
  function DecodeMarketPrice(obj: JsonObject): (r: Outcome<Option<MarketPrice>>)
    ensures r.Panicked? <==>
      exists i :: 0 <= i < |obj.members| && CleanMembers(obj.members[..i]) && PanicsAt(obj.members[..i], obj.members[i])
    ensures r.Returned? && r.value.Some? <==> obj.closed && CleanMembers(obj.members) && Complete(obj.members)
    ensures r.Returned? && r.value.Some? ==>
      && Find(obj.members, Success) == Some(JsonBool(r.value.value.success))
      && Find(obj.members, MedianPrice).Some? && EuroField(Find(obj.members, MedianPrice).value) == Some(r.value.value.medianPrice)
      && Find(obj.members, Volume).Some? && VolumeField(Find(obj.members, Volume).value) == Some(r.value.value.volume)
      && Find(obj.members, LowestPrice).Some? && EuroField(Find(obj.members, LowestPrice).value) == Some(r.value.value.lowestPrice)
  {
    match DecodeMembers(obj.members)
    case Panicked => Panicked
    case Returned(None) => Returned(None)
    case Returned(Some(f)) =>
      FoundFieldsPresent(obj.members);
      if !obj.closed then Returned(None)
      else match f
        case Fields(Some(success), Some(median), Some(volume), Some(lowest)) =>
          Returned(Some(MarketPrice(success, median, volume, lowest)))
        case _ => Returned(None)
  }

  /** A member for a field not met yet, with a value the field accepts, keeps clean members
      clean. */
  lemma {:induction false} CleanSnoc(p: seq<(FieldId, JsonValue)>, m: (FieldId, JsonValue))
    requires CleanMembers(p) && KeyCount(p, m.0) == 0 && FieldAccepts(m)
    ensures CleanMembers(p + [m])
  {
    CleanPrefix(p, m);
  }

  /** Members naming `success`, `lowest_price`, `volume` and `median_price` in that order
      name each field once, and each field's value is its member's. */
  lemma {:induction false} MarketOrderKeys(m0: (FieldId, JsonValue), m1: (FieldId, JsonValue),
                                           m2: (FieldId, JsonValue), m3: (FieldId, JsonValue))
    requires m0.0 == Success && m1.0 == LowestPrice && m2.0 == Volume && m3.0 == MedianPrice
    ensures KeyCount([m0], LowestPrice) == 0 && KeyCount([m0] + [m1], Volume) == 0 && KeyCount([m0] + [m1] + [m2], MedianPrice) == 0
    ensures var ms := [m0] + [m1] + [m2] + [m3];
      && Complete(ms)
      && Find(ms, Success) == Some(m0.1) && Find(ms, LowestPrice) == Some(m1.1)
      && Find(ms, Volume) == Some(m2.1) && Find(ms, MedianPrice) == Some(m3.1)
  {
    var s1 := [m0];
    var s2 := s1 + [m1];
    var s3 := s2 + [m2];
    assert [] + [m0] == s1;
    AppendMember([], m0, LowestPrice);
    AppendMember([], m0, Volume);
    AppendMember([], m0, MedianPrice);
    AppendMember([], m0, Success);
    AppendMember(s1, m1, LowestPrice);
    AppendMember(s1, m1, Volume);
    AppendMember(s1, m1, MedianPrice);
    AppendMember(s1, m1, Success);
    AppendMember(s2, m2, Volume);
    AppendMember(s2, m2, MedianPrice);
    AppendMember(s2, m2, Success);
    AppendMember(s2, m2, LowestPrice);
    AppendMember(s3, m3, MedianPrice);
    AppendMember(s3, m3, Success);
    AppendMember(s3, m3, LowestPrice);
    AppendMember(s3, m3, Volume);
  }

  /** The same members, each with a value its field accepts, are clean. */
  lemma {:induction false} MarketOrderClean(m0: (FieldId, JsonValue), m1: (FieldId, JsonValue),
                                            m2: (FieldId, JsonValue), m3: (FieldId, JsonValue))
    requires m0.0 == Success && m1.0 == LowestPrice && m2.0 == Volume && m3.0 == MedianPrice
    requires FieldAccepts(m0) && FieldAccepts(m1) && FieldAccepts(m2) && FieldAccepts(m3)
    ensures CleanMembers([m0] + [m1] + [m2] + [m3])
  {
    MarketOrderKeys(m0, m1, m2, m3);
    assert [] + [m0] == [m0];
    CleanSnoc([], m0);
    CleanSnoc([m0], m1);
    CleanSnoc([m0] + [m1], m2);
    CleanSnoc([m0] + [m1] + [m2], m3);
  }

  /** A closed object with the members in the market's order, each accepted by its field,
      decodes to the values of those members. */
  lemma {:induction false} MarketOrderDecodes(m0: (FieldId, JsonValue), m1: (FieldId, JsonValue),
                                              m2: (FieldId, JsonValue), m3: (FieldId, JsonValue))
    requires m0.0 == Success && m1.0 == LowestPrice && m2.0 == Volume && m3.0 == MedianPrice
    requires FieldAccepts(m0) && FieldAccepts(m1) && FieldAccepts(m2) && FieldAccepts(m3)
    ensures DecodeMarketPrice(JsonObject([m0, m1, m2, m3], true))
      == Returned(Some(MarketPrice(m0.1.b, EuroField(m3.1).value, VolumeField(m2.1).value, EuroField(m1.1).value)))
  {
    assert [m0, m1, m2, m3] == [m0] + [m1] + [m2] + [m3];
    MarketOrderKeys(m0, m1, m2, m3);
    MarketOrderClean(m0, m1, m2, m3);
  }

  /** A reply written the way the market writes it (prices in euro text, the volume with
      digit groups, the members in the market's order) decodes to the prices in cents and the
      volume, for every volume that fits a `usize`. */
  lemma {:induction false} MarketPriceRoundTrip(success: bool, median: nat, volume: nat, lowest: nat)
    requires volume < USIZE_LIMIT
    ensures DecodeMarketPrice(JsonObject([(Success, JsonBool(success)),
                                          (LowestPrice, JsonString(FormatEuroCents(lowest))),
                                          (Volume, JsonString(GroupThousands(Digits(volume)))),
                                          (MedianPrice, JsonString(FormatEuroCents(median)))], true))
      == Returned(Some(MarketPrice(success, Finite(false, median, -2), volume, Finite(false, lowest, -2))))
  {
    EuroCentsRoundTrip(median);
    EuroCentsRoundTrip(lowest);
    CommaSeparatedRoundTrip(volume);
    MarketOrderDecodes((Success, JsonBool(success)),
                       (LowestPrice, JsonString(FormatEuroCents(lowest))),
                       (Volume, JsonString(GroupThousands(Digits(volume)))),
                       (MedianPrice, JsonString(FormatEuroCents(median))));
  }

  /** A volume too large for a `usize` panics the decoding, whatever follows it: after
      clean members that have no volume yet, no later member, missing field or syntax error
      is reached. */
  lemma {:induction false} MarketPriceVolumeOverflow(seen: seq<(FieldId, JsonValue)>, volume: nat,
                                                     rest: seq<(FieldId, JsonValue)>, closed: bool)
    requires CleanMembers(seen) && KeyCount(seen, Volume) == 0
    requires volume >= USIZE_LIMIT
    ensures DecodeMarketPrice(JsonObject(seen + [(Volume, JsonString(GroupThousands(Digits(volume))))] + rest, closed)) == Panicked
  {
    var ms := seen + [(Volume, JsonString(GroupThousands(Digits(volume))))] + rest;
    CommaSeparatedOverflow(volume);
    assert ms[..|seen|] == seen && ms[|seen|].0 == Volume;
  }

  /** A reply without `median_price` and `volume` whose lowest price carries a thousands
      point (`1.234,56€`) panics: the price is decoded, and panics, before the missing fields
      would be reported. */
  lemma {:induction false} MarketPricePanicsBeforeMissingField(success: bool, a: string, b: string, c: string, last: char)
    ensures DecodeMarketPrice(JsonObject([(Success, JsonBool(success)), (LowestPrice, JsonString(a + "." + b + "," + c + [last]))], true)) == Panicked
  {
    var ms := [(Success, JsonBool(success)), (LowestPrice, JsonString(a + "." + b + "," + c + [last]))];
    EuroRejectsGroupedThousands(a, b, c, last);
    assert [] + [ms[0]] == ms[..1];
    CleanPrefix([], ms[0]);
    AppendMember([], ms[0], LowestPrice);
    assert PanicsAt(ms[..1], ms[1]);
  }
}
