/** The serializers of Backend/books/serializers.py reduced to explicit rules.

    A request body is a map from field name to JSON scalar. Each model field
    becomes a field reader with Django REST framework's behaviour for its
    kind (CharField, IntegerField, ChoiceField, DateField,
    PrimaryKeyRelatedField): it yields the cleaned value or the error codes
    DRF reports for that field. `is_valid()` becomes a declarative predicate
    per serializer (AuthorValid, BookValid, ReviewValid, UserValid), and
    `serializer.errors` becomes a list of field errors in the serializer's
    field order; each pair is tied by a lemma. */
module Serializers {
  import opened Common
  import opened Models
  import Orm

  /** A request body (request.data). */
  type Data = map<string, Json>

  /** DRF's error codes for field validation. */
  datatype Code =
    | Required       // the field is missing
    | Null           // the field is JSON null
    | Invalid        // not a value of the field's kind
    | Blank          // text that is empty once stripped
    | MaxLength(limit: nat)
    | NullCharacters // text holding U+0000
    | MaxStringLength(limit: nat) // a number written with too many characters
    | InvalidChoice
    | IncorrectType  // a related key that is not an integer
    | DoesNotExist   // a related key naming no row
    | Unique         // a value some other row already holds

  datatype FieldError = FieldError(field: string, code: Code)

  // ---------------------------------------------------------------- field kinds

  /** The text DRF makes of a scalar with str(): strings as given, integers in decimal. */
  function TextOf(v: Json): string
    requires !v.JNull?
  {
    match v
    case JStr(s) => s
    case JInt(n) => IntToString(n)
  }

  /** The cleaned text of a present, non-null field: CharField strips surrounding whitespace. */
  function CleanText(data: Data, name: string): string
    requires name in data && !data[name].JNull?
  {
    Trim(TextOf(data[name]))
  }

  /** The texts Python's int() reads once stripped: decimal digits with an optional sign. */
  predicate IntegerText(t: string)
  {
    (t != [] && AllDigits(t)) || (|t| > 1 && (t[0] == '-' || t[0] == '+') && AllDigits(t[1..]))
  }

  /** Python int() of a string: optional sign, decimal digits, surrounding whitespace ignored. */
  function ParseInt(s: string): (r: Option<int>)
    ensures r.Some? <==> IntegerText(Trim(s))
    ensures AllDigits(s) && s != [] ==> r == Some(ParseNat(s))
    ensures r.Some? && Trim(s)[0] == '-' ==> r.value <= 0
    ensures r.Some? && Trim(s)[0] != '-' ==> r.value >= 0
  {
    var t := Trim(s);
    if t != [] && AllDigits(t) then Some(ParseNat(t))
    else if |t| > 1 && t[0] == '-' && AllDigits(t[1..]) then Some(-(ParseNat(t[1..]) as int))
    else if |t| > 1 && t[0] == '+' && AllDigits(t[1..]) then Some(ParseNat(t[1..]))
    else None
  }

  /** int() reads a stripped text written by str() of a natural number as that number. */
  lemma ParseIntOfNatText(s: string, m: nat)
    requires Trim(s) == NatToString(m)
    ensures ParseInt(s) == Some(m)
  {
    ParseNatToString(m);
  }

  /** int() reads a stripped text made of a sign and the digits of m as m with that sign. */
  lemma ParseIntOfSignedText(s: string, sign: char, m: nat)
    requires sign == '-' || sign == '+'
    requires Trim(s) == [sign] + NatToString(m)
    ensures ParseInt(s) == Some(if sign == '-' then -(m as int) else m as int)
  {
    var t := Trim(s);
    ParseNatToString(m);
    assert t[1..] == NatToString(m);
    assert !AllDigits(t) by { assert !IsDigit(t[0]); }
  }

  /** int() reads back the text str() writes for any integer, whatever whitespace surrounds it. */
  lemma ParseIntRoundTrip(n: int, pre: string, post: string)
    requires AllSpace(pre) && AllSpace(post)
    ensures ParseInt(pre + IntToString(n) + post) == Some(n)
  {
    var x := IntToString(n);
    if n < 0 {
      var d := NatToString(-n);
      assert x == ['-'] + d && x[|x| - 1] == d[|d| - 1];
      TrimPadded(pre, x, post);
      ParseIntOfSignedText(pre + x + post, '-', -n);
    } else {
      TrimPadded(pre, x, post);
      ParseIntOfNatText(pre + x + post, n);
    }
  }

  /** int() also accepts an explicit plus sign in front of a natural number. */
  lemma ParseIntPlusSign(n: nat, pre: string, post: string)
    requires AllSpace(pre) && AllSpace(post)
    ensures ParseInt(pre + ("+" + NatToString(n)) + post) == Some(n)
  {
    var d := NatToString(n);
    var y := "+" + d;
    assert y[|y| - 1] == d[|d| - 1];
    TrimPadded(pre, y, post);
    ParseIntOfSignedText(pre + y + post, '+', n);
  }

  /** The integer a scalar denotes for a primary-key lookup: Django's int() of the value. */
  function IntOf(v: Json): Option<int>
  {
    match v
    case JInt(n) => Some(n)
    case JStr(s) => ParseInt(s)
    case JNull => None
  }

  // ---------------------------------------------------------------- integers

  /** IntegerField refuses longer strings before trying to read them. */
  const IntegerMaxStringLength: nat := 1000

  /** t with its leading zeros dropped. */
  function DropZeros(t: string): string
    decreases |t|
  {
    if t != [] && t[0] == '0' then DropZeros(t[1..]) else t
  }

  /** Whether t, the text after a decimal point, matches `0*\s*` up to the end. */
  predicate ZeroFraction(t: string)
  {
    AllSpace(DropZeros(t))
  }

  /** What re.sub(r'\.0*\s*$', '', s) leaves of s: from the leftmost decimal point followed
      only by zeros and then whitespace, the rest is cut off. */
  function StripZeroFraction(s: string): (r: string)
    ensures r <= s
    decreases |s|
  {
    if s == [] then []
    else if s[0] == '.' && ZeroFraction(s[1..]) then []
    else [s[0]] + StripZeroFraction(s[1..])
  }

  /** The integer IntegerField reads from a scalar: int(str(value)) once a zero fraction is cut off. */
  function IntegerOf(v: Json): Option<int>
  {
    match v
    case JInt(n) => Some(n)
    case JStr(s) => ParseInt(StripZeroFraction(s))
    case JNull => None
  }

  /** A string too long for IntegerField to read. */
  predicate OverlongInteger(v: Json)
  {
    v.JStr? && |v.s| > IntegerMaxStringLength
  }

  // ---------------------------------------------------------------- dates

  /** A calendar date, as datetime.date holds it. */
  datatype CalendarDate = CalendarDate(year: nat, month: nat, day: nat)

  predicate LeapYear(y: nat)
  {
    y % 4 == 0 && (y % 100 != 0 || y % 400 == 0)
  }

  function DaysInMonth(y: nat, m: nat): (n: nat)
    requires 1 <= m <= 12
    ensures 28 <= n <= 31
  {
    if m == 2 then (if LeapYear(y) then 29 else 28)
    else if m == 4 || m == 6 || m == 9 || m == 11 then 30
    else 31
  }

  /** The dates datetime.date(year, month, day) accepts; it raises ValueError for any other. */
  predicate ValidDate(d: CalendarDate)
  {
    1 <= d.year <= 9999 && 1 <= d.month <= 12 && 1 <= d.day <= DaysInMonth(d.year, d.month)
  }

  /** The groups of `\d{4}-\d{1,2}-\d{1,2}` when that pattern covers all of s. */
  function DateGroups(s: string): Option<CalendarDate>
  {
    if |s| < 8 || !AllDigits(s[..4]) || s[4] != '-' then None
    else
      var rest := s[5..];
      var m := DigitPrefixLength(rest);
      if m < 1 || m > 2 || m == |rest| || rest[m] != '-' then None
      else
        var day := rest[m + 1..];
        if |day| < 1 || |day| > 2 || !AllDigits(day) then None
        else Some(CalendarDate(ParseNat(s[..4]), ParseNat(rest[..m]), ParseNat(day)))
  }

  /** django.utils.dateparse.parse_date as DateField calls it. date.fromisoformat takes only
      YYYY-MM-DD, which the pattern `\d{4}-\d{1,2}-\d{1,2}$` also takes; the pattern's `$`
      admits one final line break. A date outside the calendar is refused like a malformed one. */
  function ParseDate(s: string): (r: Option<CalendarDate>)
    ensures r.Some? ==> ValidDate(r.value)
  {
    var body := if s != [] && s[|s| - 1] == '\n' then s[..|s| - 1] else s;
    match DateGroups(body)
    case Some(d) => if ValidDate(d) then Some(d) else None
    case None => None
  }

  function Pow10(w: nat): (p: nat)
    ensures p >= 1
  {
    if w == 0 then 1 else 10 * Pow10(w - 1)
  }

  /** n in exactly w decimal digits, padded with leading zeros. */
  function PadDigits(n: nat, w: nat): (s: string)
    requires n < Pow10(w)
    ensures |s| == w && AllDigits(s) && ParseNat(s) == n
  {
    if w == 0 then []
    else
      var s := PadDigits(n / 10, w - 1) + [DigitChar(n % 10)];
      assert s[..|s| - 1] == PadDigits(n / 10, w - 1);
      s
  }

  /** date.isoformat(), the text a DateField writes out: YYYY-MM-DD with zero padding. */
  function DateText(d: CalendarDate): (s: string)
    requires ValidDate(d)
    ensures |s| == 10 && s[4] == '-' && s[7] == '-'
  {
    PadDigits(d.year, 4) + "-" + PadDigits(d.month, 2) + "-" + PadDigits(d.day, 2)
  }

  /** The pattern takes four year digits and one or two digits each for month and day. */
  lemma DateGroupsOf(y: string, m: string, dd: string)
    requires |y| == 4 && AllDigits(y)
    requires 1 <= |m| <= 2 && AllDigits(m)
    requires 1 <= |dd| <= 2 && AllDigits(dd)
    ensures DateGroups(y + "-" + m + "-" + dd) == Some(CalendarDate(ParseNat(y), ParseNat(m), ParseNat(dd)))
  {
    var s := y + "-" + m + "-" + dd;
    assert s == y + ("-" + (m + ("-" + dd)));
    assert |s| >= 8 && s[..4] == y && s[4] == '-';
    var rest := s[5..];
    assert rest == m + ("-" + dd);
    DigitPrefixOfDigits(m, "-" + dd);
    assert DigitPrefixLength(rest) == |m|;
    assert rest[|m|] == '-';
    assert rest[..|m|] == m;
    assert rest[|m| + 1..] == dd;
  }

  /** Reading the written form of a date gives that date back. */
  lemma DateRoundTrip(d: CalendarDate)
    requires ValidDate(d)
    ensures ParseDate(DateText(d)) == Some(d)
  {
    var s := DateText(d);
    var dd := PadDigits(d.day, 2);
    DateGroupsOf(PadDigits(d.year, 4), PadDigits(d.month, 2), dd);
    assert s[|s| - 1] == dd[1];
  }

  /** A date written with month and day unpadded, as `\d{1,2}` allows ("2020-1-5"). */
  function ShortDateText(d: CalendarDate): string
    requires ValidDate(d)
  {
    PadDigits(d.year, 4) + "-" + NatToString(d.month) + "-" + NatToString(d.day)
  }

  lemma ShortNatToString(n: nat)
    requires n < 100
    ensures 1 <= |NatToString(n)| <= 2
  {
    if n >= 10 {
      assert NatToString(n) == NatToString(n / 10) + [DigitChar(n % 10)];
    }
  }

  /** The unpadded form is accepted too, and denotes the same date, which DateText then pads. */
  lemma ShortDateAccepted(d: CalendarDate)
    requires ValidDate(d)
    ensures ParseDate(ShortDateText(d)) == Some(d)
  {
    var s := ShortDateText(d);
    var dd := NatToString(d.day);
    ShortNatToString(d.month);
    ShortNatToString(d.day);
    ParseNatToString(d.month);
    ParseNatToString(d.day);
    DateGroupsOf(PadDigits(d.year, 4), NatToString(d.month), dd);
    assert s[|s| - 1] == dd[|dd| - 1];
  }

  /** February 29th exists only in leap years, so the same text is accepted for 2020 and refused for 2021. */
  lemma LeapDay()
    ensures ValidDate(CalendarDate(2020, 2, 29)) && !ValidDate(CalendarDate(2021, 2, 29))
    ensures !ValidDate(CalendarDate(1900, 2, 29)) && ValidDate(CalendarDate(2000, 2, 29))
  {
  }

  // Declarative acceptance rules, one per field kind.

  predicate TextOk(data: Data, name: string, maxLength: Option<nat>)
  {
    name in data && !data[name].JNull? &&
    CleanText(data, name) != [] &&
    (maxLength.Some? ==> |CleanText(data, name)| <= maxLength.value) &&
    '\0' !in CleanText(data, name)
  }

  predicate IntOk(data: Data, name: string)
  {
    name in data && !OverlongInteger(data[name]) && IntegerOf(data[name]).Some?
  }

  predicate ChoiceOk(data: Data, name: string, choices: seq<string>)
  {
    name in data && !data[name].JNull? && TextOf(data[name]) in choices
  }

  predicate DateOk(data: Data, name: string)
  {
    name in data && data[name].JStr? && ParseDate(data[name].s).Some?
  }

  /** The date a DateOk field stores, in its written form. */
  function CleanDate(data: Data, name: string): Date
    requires DateOk(data, name)
  {
    DateText(ParseDate(data[name].s).value)
  }

  predicate RefOk(data: Data, name: string, keys: set<nat>)
  {
    name in data && IntOf(data[name]).Some? && IntOf(data[name]).value >= 0 && IntOf(data[name]).value as nat in keys
  }

  // Field readers, as DRF runs them: the cleaned value, or every error code of the field.

  /** The validators every CharField carries, in their order, all of them run: MaxLengthValidator
      when a maximum is set, then ProhibitNullCharactersValidator. */
  function CharValidators(v: string, maxLength: Option<nat>): (codes: seq<Code>)
    ensures codes == [] <==> (maxLength.Some? ==> |v| <= maxLength.value) && '\0' !in v
    ensures NullCharacters in codes <==> '\0' in v
  {
    (if maxLength.Some? && |v| > maxLength.value then [MaxLength(maxLength.value)] else []) +
    (if '\0' in v then [NullCharacters] else [])
  }

  /** CharField(max_length=maxLength): required, not null, not blank after stripping, then its validators. */
  function CharField(data: Data, name: string, maxLength: Option<nat>): (r: Result<string, seq<Code>>)
    ensures r.Ok? <==> TextOk(data, name, maxLength)
    ensures r.Ok? ==> r.value == CleanText(data, name)
    ensures r.Err? ==> r.error != []
    ensures name in data && !data[name].JNull? && CleanText(data, name) != [] && '\0' in CleanText(data, name) ==>
      r.Err? && NullCharacters in r.error
  {
    if name !in data then Err([Required])
    else if data[name].JNull? then Err([Null])
    else
      var v := CleanText(data, name);
      if v == [] then Err([Blank])
      else
        var codes := CharValidators(v, maxLength);
        if codes == [] then Ok(v) else Err(codes)
  }

  /** IntegerField: a string over 1000 characters is refused outright; otherwise the value is read
      with int() once a zero fraction such as ".0" or ". " is cut off. */
  function IntegerField(data: Data, name: string): (r: Result<int, seq<Code>>)
    ensures r.Ok? <==> IntOk(data, name)
    ensures r.Ok? ==> r.value == IntegerOf(data[name]).value
    ensures r.Err? ==> r.error != []
    ensures name in data && OverlongInteger(data[name]) ==> r == Err([MaxStringLength(IntegerMaxStringLength)])
  {
    if name !in data then Err([Required])
    else if data[name].JNull? then Err([Null])
    else if OverlongInteger(data[name]) then Err([MaxStringLength(IntegerMaxStringLength)])
    else if IntegerOf(data[name]).None? then Err([Invalid])
    else Ok(IntegerOf(data[name]).value)
  }

  /** Decimal digits never hold a decimal point, so no fraction is cut from them. */
  lemma {:induction false} StripZeroFractionDigits(digits: string, tail: string)
    requires AllDigits(digits) && tail != [] && tail[0] == '.' && ZeroFraction(tail[1..])
    ensures StripZeroFraction(digits + tail) == digits
    decreases |digits|
  {
    var s := digits + tail;
    if digits == [] {
      assert s == tail;
    } else {
      assert s[0] == digits[0] && IsDigit(digits[0]);
      assert s[1..] == digits[1..] + tail;
      StripZeroFractionDigits(digits[1..], tail);
      assert StripZeroFraction(s) == [s[0]] + StripZeroFraction(s[1..]);
      assert digits == [digits[0]] + digits[1..];
    }
  }

  /** A number written with a zero fraction, such as "5.0", "5." or "5.00 ", reads as the number. */
  lemma ZeroFractionAccepted(data: Data, name: string, n: nat, fraction: string)
    requires name in data && data[name] == JStr(NatToString(n) + "." + fraction)
    requires ZeroFraction(fraction) && |data[name].s| <= IntegerMaxStringLength
    ensures IntegerField(data, name) == Ok(n)
  {
    var digits := NatToString(n);
    assert digits + "." + fraction == digits + ("." + fraction);
    assert ("." + fraction)[1..] == fraction;
    StripZeroFractionDigits(digits, "." + fraction);
    ParseNatToString(n);
  }

  /** ChoiceField: str() of the value must be one of the choices. */
  function ChoiceField(data: Data, name: string, choices: seq<string>): (r: Result<string, seq<Code>>)
    ensures r.Ok? <==> ChoiceOk(data, name, choices)
    ensures r.Ok? ==> r.value in choices && r.value == TextOf(data[name])
    ensures r.Err? ==> r.error != []
  {
    if name !in data then Err([Required])
    else if data[name].JNull? then Err([Null])
    else if TextOf(data[name]) !in choices then Err([InvalidChoice])
    else Ok(TextOf(data[name]))
  }

  /** DateField: the value must be a string parse_date reads; the stored date is written out as
      YYYY-MM-DD and denotes the date submitted. */
  function DateField(data: Data, name: string): (r: Result<Date, seq<Code>>)
    ensures r.Ok? <==> DateOk(data, name)
    ensures r.Ok? ==> r.value == CleanDate(data, name) && ParseDate(r.value) == ParseDate(data[name].s)
    ensures r.Err? ==> r.error != []
  {
    if name !in data then Err([Required])
    else if data[name].JNull? then Err([Null])
    else if !data[name].JStr? || ParseDate(data[name].s).None? then Err([Invalid])
    else
      DateRoundTrip(ParseDate(data[name].s).value);
      Ok(CleanDate(data, name))
  }

  /** PrimaryKeyRelatedField over a table with the given keys; an empty string counts as null. */
  function RelatedField(data: Data, name: string, keys: set<nat>): (r: Result<nat, seq<Code>>)
    ensures r.Ok? <==> RefOk(data, name, keys)
    ensures r.Ok? ==> r.value in keys && r.value == IntOf(data[name]).value
    ensures r.Err? ==> r.error != []
    ensures name in data && data[name] == JStr("") ==> r == Err([Null])
  {
    if name !in data then Err([Required])
    else if data[name].JNull? || data[name] == JStr("") then Err([Null])
    else if IntOf(data[name]).None? then Err([IncorrectType])
    else if IntOf(data[name]).value < 0 || IntOf(data[name]).value as nat !in keys then Err([DoesNotExist])
    else Ok(IntOf(data[name]).value as nat)
  }

  /** Book.isbn: CharField(max_length=17) with the UniqueValidator that unique=True puts ahead of
      the CharField's own validators. Once the value is present, not null and not blank, all of
      them run and every failure is reported: uniqueness, then length, then U+0000. */
  function IsbnField(t: Tables, data: Data, instance: Option<nat>): (r: Result<string, seq<Code>>)
    ensures r.Ok? <==> TextOk(data, "isbn", Some(IsbnMaxLength)) && IsbnFree(t, CleanText(data, "isbn"), instance)
    ensures r.Ok? ==> r.value == CleanText(data, "isbn")
    ensures r.Err? ==> r.error != []
    ensures "isbn" in data && !data["isbn"].JNull? && CleanText(data, "isbn") != [] && r.Err? ==>
      var v := CleanText(data, "isbn");
      (Unique in r.error <==> !IsbnFree(t, v, instance)) &&
      (MaxLength(IsbnMaxLength) in r.error <==> |v| > IsbnMaxLength) &&
      (NullCharacters in r.error <==> '\0' in v) &&
      (!IsbnFree(t, v, instance) ==> r.error[0] == Unique)
  {
    if "isbn" !in data then Err([Required])
    else if data["isbn"].JNull? then Err([Null])
    else
      var v := CleanText(data, "isbn");
      if v == [] then Err([Blank])
      else
        var codes := (if IsbnFree(t, v, instance) then [] else [Unique]) + CharValidators(v, Some(IsbnMaxLength));
        if codes == [] then Ok(v) else Err(codes)
  }

  /** A taken ISBN that is too long and holds U+0000 reports all three failures, in validator order. */
  lemma IsbnReportsEveryFailure(t: Tables, data: Data, instance: Option<nat>)
    requires "isbn" in data && !data["isbn"].JNull? && CleanText(data, "isbn") != []
    requires !IsbnFree(t, CleanText(data, "isbn"), instance)
    requires |CleanText(data, "isbn")| > IsbnMaxLength && '\0' in CleanText(data, "isbn")
    ensures IsbnField(t, data, instance) == Err([Unique, MaxLength(IsbnMaxLength), NullCharacters])
  {
    var v := CleanText(data, "isbn");
    var codes := CharValidators(v, Some(IsbnMaxLength));
    assert codes == [MaxLength(IsbnMaxLength), NullCharacters] by {
      assert codes == [MaxLength(IsbnMaxLength)] + [NullCharacters];
    }
    assert [Unique] + codes == [Unique, MaxLength(IsbnMaxLength), NullCharacters];
    assert IsbnField(t, data, instance) == Err([Unique] + codes);
  }

  /** serializer.errors for one field. */
  function FieldErrors<T>(name: string, r: Result<T, seq<Code>>): (e: seq<FieldError>)
    requires r.Err? ==> r.error != []
    ensures e == [] <==> r.Ok?
    ensures forall i :: 0 <= i < |e| ==> e[i].field == name
  {
    if r.Ok? then [] else seq(|r.error|, i requires 0 <= i < |r.error| => FieldError(name, r.error[i]))
  }

  // ---------------------------------------------------------------- AuthorSerializer

  predicate AuthorValid(data: Data)
  {
    TextOk(data, "name", Some(AuthorNameMaxLength)) && TextOk(data, "bio", None)
  }

  function AuthorErrors(data: Data): (e: seq<FieldError>)
    ensures e == [] <==> AuthorValid(data)
  {
    FieldErrors("name", CharField(data, "name", Some(AuthorNameMaxLength))) +
    FieldErrors("bio", CharField(data, "bio", None))
  }

  // ---------------------------------------------------------------- BookSerializer

  /** `instance` is the book being replaced by a PUT, which the ISBN uniqueness check ignores. */
  predicate BookValid(t: Tables, data: Data, instance: Option<nat>)
  {
    TextOk(data, "title", Some(BookTitleMaxLength)) &&
    DateOk(data, "publication_date") &&
    TextOk(data, "isbn", Some(IsbnMaxLength)) && IsbnFree(t, CleanText(data, "isbn"), instance) &&
    RefOk(data, "author", t.authors.Keys)
  }

  /** Errors in the order of the writable fields of `fields = '__all__'`: the plain fields of the
      model, then its foreign key. */
  function BookErrors(t: Tables, data: Data, instance: Option<nat>): (e: seq<FieldError>)
    ensures e == [] <==> BookValid(t, data, instance)
  {
    FieldErrors("title", CharField(data, "title", Some(BookTitleMaxLength))) +
    FieldErrors("publication_date", DateField(data, "publication_date")) +
    FieldErrors("isbn", IsbnField(t, data, instance)) +
    FieldErrors("author", RelatedField(data, "author", t.authors.Keys))
  }

  /** An empty body names every book field as required, in the serializer's field order. */
  lemma BookErrorsOfEmpty(t: Tables, instance: Option<nat>)
    ensures BookErrors(t, map[], instance) ==
      [FieldError("title", Required), FieldError("publication_date", Required),
       FieldError("isbn", Required), FieldError("author", Required)]
  {
  }

  // ---------------------------------------------------------------- ReviewSerializer

  /** The choices of Review.rating, as ChoiceField compares them: the text of 1..10. */
  const RatingChoices: seq<string> := ["1", "2", "3", "4", "5", "6", "7", "8", "9", "10"]

  predicate ReviewValid(t: Tables, data: Data)
  {
    ChoiceOk(data, "rating", RatingChoices) &&
    TextOk(data, "review_text", None) &&
    RefOk(data, "book", t.books.Keys) &&
    RefOk(data, "user", t.users.Keys)
  }

  /** Errors in the order of the writable fields of `fields = '__all__'`: the plain fields
      (created_at is read-only), then the foreign keys. */
  function ReviewErrors(t: Tables, data: Data): (e: seq<FieldError>)
    ensures e == [] <==> ReviewValid(t, data)
  {
    FieldErrors("rating", ChoiceField(data, "rating", RatingChoices)) +
    FieldErrors("review_text", CharField(data, "review_text", None)) +
    FieldErrors("book", RelatedField(data, "book", t.books.Keys)) +
    FieldErrors("user", RelatedField(data, "user", t.users.Keys))
  }

  /** An empty body names every review field as required, in the serializer's field order. */
  lemma ReviewErrorsOfEmpty(t: Tables)
    ensures ReviewErrors(t, map[]) ==
      [FieldError("rating", Required), FieldError("review_text", Required),
       FieldError("book", Required), FieldError("user", Required)]
  {
  }

  /** The rating an accepted review carries: always within 1..10, and the submitted number itself. */
  function Rating(data: Data): (r: int)
    requires ChoiceOk(data, "rating", RatingChoices)
    ensures RatingInRange(r)
    ensures NatToString(r) == TextOf(data["rating"])
    ensures data["rating"].JInt? ==> r == data["rating"].n
  {
    RatingOfChoice(data);
    ParseNat(TextOf(data["rating"]))
  }

  lemma RatingChoiceValue(k: nat)
    requires k < |RatingChoices|
    ensures RatingChoices[k] == NatToString(k + 1)
  {
  }

  lemma RatingOfChoice(data: Data)
    requires ChoiceOk(data, "rating", RatingChoices)
    ensures AllDigits(TextOf(data["rating"]))
    ensures RatingInRange(ParseNat(TextOf(data["rating"])))
    ensures NatToString(ParseNat(TextOf(data["rating"]))) == TextOf(data["rating"])
    ensures data["rating"].JInt? ==> ParseNat(TextOf(data["rating"])) == data["rating"].n
  {
    var s := TextOf(data["rating"]);
    var k :| 0 <= k < |RatingChoices| && RatingChoices[k] == s;
    RatingChoiceValue(k);
    ParseNatToString(k + 1);
    if data["rating"].JInt? {
      var n := data["rating"].n;
      assert n >= 0;
      NatToStringInjective(n, k + 1);
    }
  }

  /** A number is an accepted rating exactly when it lies in 1..10 (so 0 and 11 are refused, 1 and 10 accepted). */
  lemma RatingBoundaries(data: Data, n: int)
    requires "rating" in data && data["rating"] == JInt(n)
    ensures ChoiceOk(data, "rating", RatingChoices) <==> RatingInRange(n)
  {
    if RatingInRange(n) {
      RatingChoiceValue(n - 1);
      assert RatingChoices[n - 1] == IntToString(n);
    }
    if ChoiceOk(data, "rating", RatingChoices) {
      var r := Rating(data);
    }
  }

  // ---------------------------------------------------------------- UserSerializer

  /** UserSerializer.Meta.fields in declared order, each with its write_only flag. */
  const UserFields: seq<(string, bool)> := [
    ("id", false), ("username", false), ("password", true), ("first_name", false),
    ("last_name", false), ("email", false), ("gender", false)]

  /** The fields a serializer writes out: the declared ones that are not write-only. */
  function ReadableFields(fields: seq<(string, bool)>): (r: seq<string>)
    ensures forall n :: n in r <==> exists i :: 0 <= i < |fields| && fields[i].0 == n && !fields[i].1
  {
    if fields == [] then []
    else
      var rest := ReadableFields(fields[1..]);
      assert forall n :: n in rest <==> exists i :: 1 <= i < |fields| && fields[i].0 == n && !fields[i].1 by {
        forall n | n in rest ensures exists i :: 1 <= i < |fields| && fields[i].0 == n && !fields[i].1 {
          var j :| 0 <= j < |fields[1..]| && fields[1..][j].0 == n && !fields[1..][j].1;
          assert fields[j + 1] == fields[1..][j];
        }
        forall n | (exists i :: 1 <= i < |fields| && fields[i].0 == n && !fields[i].1) ensures n in rest {
          var i :| 1 <= i < |fields| && fields[i].0 == n && !fields[i].1;
          assert fields[1..][i - 1] == fields[i];
        }
      }
      if fields[0].1 then rest else [fields[0].0] + rest
  }

  predicate UserValid(data: Data)
  {
    IntOk(data, "id") &&
    TextOk(data, "username", Some(UserNameMaxLength)) &&
    TextOk(data, "password", None) &&
    TextOk(data, "first_name", Some(UserNameMaxLength)) &&
    TextOk(data, "last_name", Some(UserNameMaxLength)) &&
    TextOk(data, "email", None) &&
    ChoiceOk(data, "gender", GenderChoices)
  }

  function UserErrors(data: Data): (e: seq<FieldError>)
    ensures e == [] <==> UserValid(data)
  {
    FieldErrors("id", IntegerField(data, "id")) +
    FieldErrors("username", CharField(data, "username", Some(UserNameMaxLength))) +
    FieldErrors("password", CharField(data, "password", None)) +
    FieldErrors("first_name", CharField(data, "first_name", Some(UserNameMaxLength))) +
    FieldErrors("last_name", CharField(data, "last_name", Some(UserNameMaxLength))) +
    FieldErrors("email", CharField(data, "email", None)) +
    FieldErrors("gender", ChoiceField(data, "gender", GenderChoices))
  }

  /** UserSerializer(user).data: the readable fields in declared order; the password is never among them. */
  function UserData(u: User): (r: seq<(string, Json)>)
    ensures |r| == |ReadableFields(UserFields)|
    ensures forall i :: 0 <= i < |r| ==> r[i].0 == ReadableFields(UserFields)[i]
    ensures forall i :: 0 <= i < |r| ==> r[i].0 != "password"
    ensures r[0] == ("id", JInt(u.id)) && r[1] == ("username", JStr(u.username))
  {
    assert ReadableFields(UserFields) == ["id", "username", "first_name", "last_name", "email", "gender"];
    [("id", JInt(u.id)), ("username", JStr(u.username)), ("first_name", JStr(u.firstName)),
     ("last_name", JStr(u.lastName)), ("email", JStr(u.email)), ("gender", JStr(GenderChoice(u.gender)))]
  }

  const DuplicateUsernameMessage := "A user with this username already exists."

  /** UserSerializer.create: stores the validated username, names, email and gender under a
      fresh primary key (the submitted id is not used); a taken username becomes a validation
      error and nothing is stored. */
  method CreateUser(db: Orm.Store, data: Data) returns (r: Result<User, string>)
    requires db.Valid() && UserValid(data)
    modifies db
    ensures db.Valid()
    ensures !UsernameFree(old(db.Tables()), CleanText(data, "username")) ==>
      r == Err(DuplicateUsernameMessage) && unchanged(db)
    ensures UsernameFree(old(db.Tables()), CleanText(data, "username")) ==>
      r.Ok? && r.value.id == old(db.next.user) && r.value.id !in old(db.users) &&
      r.value == User(r.value.id, CleanText(data, "username"), CleanText(data, "first_name"),
                      CleanText(data, "last_name"), CleanText(data, "email"),
                      GenderOf(TextOf(data["gender"])).value) &&
      db.Tables() == old(db.Tables()).(users := old(db.users)[r.value.id := r.value]) &&
      db.next == old(db.next).(user := old(db.next.user) + 1)
  {
    var created := db.CreateUser(CleanText(data, "username"), CleanText(data, "first_name"),
                                 CleanText(data, "last_name"), CleanText(data, "email"),
                                 GenderOf(TextOf(data["gender"])).value);
    match created
    case Err(_) =>
      r := Err(DuplicateUsernameMessage);
    case Ok(u) =>
      r := Ok(u);
  }
}
