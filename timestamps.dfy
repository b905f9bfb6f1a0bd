/**
 Cue timestamps: the header pattern that starts a caption block, the padding
 of the short `mm:ss.mmm` form to `hh:mm:ss.mmm`, and the numeric sort key.
 The key is kept in integer milliseconds: `h*3600 + m*60 + s + ms/1000`
 seconds is `h*3600000 + m*60000 + s*1000 + ms` milliseconds.
 */
module Timestamps {
  import opened Results
  import opened Strings

  predicate IsDigit(c: char) {
    '0' <= c <= '9'
  }

  predicate AllDigits(s: string) {
    forall i :: 0 <= i < |s| ==> IsDigit(s[i])
  }

  function DigitValue(c: char): nat
    requires IsDigit(c)
  {
    c as int - '0' as int
  }

  /** The decimal value of a string of digits. */
  function DigitsValue(s: string): nat
    requires AllDigits(s)
  {
    if s == [] then 0 else DigitsValue(s[..|s| - 1]) * 10 + DigitValue(s[|s| - 1])
  }

  /** Python's `int(s)` on ASCII digits; `None` stands for the ValueError it raises. */
  function ParseInt(s: string): Option<nat> {
    if s != [] && AllDigits(s) then Some(DigitsValue(s)) else None
  }

  /** `\d{2}:\d{2}\.\d{3}` at position `k` of `s`. */
  predicate MinSecMsAt(s: string, k: nat) {
    && k + 9 <= |s|
    && IsDigit(s[k]) && IsDigit(s[k + 1]) && s[k + 2] == ':'
    && IsDigit(s[k + 3]) && IsDigit(s[k + 4]) && s[k + 5] == '.'
    && IsDigit(s[k + 6]) && IsDigit(s[k + 7]) && IsDigit(s[k + 8])
  }

  /** `\d{2}:` at the start of `s`. */
  predicate HourAtStart(s: string) {
    |s| >= 3 && IsDigit(s[0]) && IsDigit(s[1]) && s[2] == ':'
  }

  /**
   A cue header: the line begins with `(\d{2}:)?\d{2}:\d{2}\.\d{3}`
   (a match at the start only; whatever follows is not looked at).
   */
  predicate IsCueHeader(line: string) {
    (HourAtStart(line) && MinSecMsAt(line, 3)) || MinSecMsAt(line, 0)
  }

  /**
   The whole of `t` is `\d{2}:\d{2}\.\d{3}`; like Python's `$`, the match
   also succeeds when one final newline follows.
   */
  predicate IsShortForm(t: string) {
    MinSecMsAt(t, 0) && (|t| == 9 || (|t| == 10 && t[9] == '\n'))
  }

  /** The whole of `t` is `\d{2}:\d{2}:\d{2}\.\d{3}`. */
  predicate IsLongForm(t: string) {
    |t| == 12 && HourAtStart(t) && MinSecMsAt(t, 3)
  }

  /**
   Adds the missing hour field to a short-form time. The result is never a
   short form itself, so padding twice is padding once.
   */
  function PadTimeString(t: string): (r: string)
    ensures !IsShortForm(r)
    ensures r == t || r == "00:" + t
    ensures r != t <==> IsShortForm(t)
    ensures IsShortForm(t) && |t| == 9 ==> IsLongForm(r)
  {
    if IsShortForm(t) then "00:" + t else t
  }

  /** The four numeric fields of `hh:mm:ss.mmm`, still as text. */
  datatype Fields = Fields(h: string, m: string, s: string, ms: string)

  /**
   `h, m, s = t.split(":")` and then `s, ms = s.split(".")`: `None` stands
   for the ValueError raised when a split does not give exactly as many
   parts as are unpacked.
   */
  function SplitFields(p: string): Option<Fields> {
    var hms := SplitChar(p, ':');
    if |hms| != 3 then None
    else
      var sms := SplitChar(hms[2], '.');
      if |sms| != 2 then None else Some(Fields(hms[0], hms[1], sms[0], sms[1]))
  }

  /** `int(h) * 3600 + int(m) * 60 + int(s) + int(ms) / 1000`, in milliseconds. */
  function FieldsMillis(f: Fields): Option<nat> {
    match (ParseInt(f.h), ParseInt(f.m), ParseInt(f.s), ParseInt(f.ms))
    case (Some(h), Some(m), Some(s), Some(ms)) => Some(h * 3600000 + m * 60000 + s * 1000 + ms)
    case _ => None
  }

  /**
   `time_to_seconds` in milliseconds: pad, split into the four fields, read
   each as an integer. `None` stands for the ValueError raised on any other
   shape.
   */
  function TimeToMillis(t: string): Option<nat> {
    match SplitFields(PadTimeString(t))
    case None => None
    case Some(f) => FieldsMillis(f)
  }

  /** The four fields written out with their separators. */
  function Format(f: Fields): string {
    f.h + ([':'] + (f.m + ([':'] + (f.s + (['.'] + f.ms)))))
  }

  predicate IsField(f: string) {
    f != [] && AllDigits(f)
  }

  predicate AllFields(f: Fields) {
    IsField(f.h) && IsField(f.m) && IsField(f.s) && IsField(f.ms)
  }

  /** What the four fields are worth, in milliseconds. */
  function FieldsValue(f: Fields): nat
    requires AllFields(f)
  {
    DigitsValue(f.h) * 3600000 + DigitsValue(f.m) * 60000 + DigitsValue(f.s) * 1000 + DigitsValue(f.ms)
  }

  /** The fields are read exactly when each is a non-empty string of digits. */
  lemma FieldsMillisValue(f: Fields)
    ensures FieldsMillis(f).Some? <==> AllFields(f)
    ensures FieldsMillis(f).Some? ==> FieldsMillis(f).value == FieldsValue(f)
  {
  }

  /**
   A successful split means the text is exactly the fields with their
   separators, and no field holds a separator.
   */
  lemma SplitFieldsFormat(p: string)
    requires SplitFields(p).Some?
    ensures var f := SplitFields(p).value;
      && p == Format(f)
      && ':' !in f.h && ':' !in f.m && ':' !in f.s && '.' !in f.s && ':' !in f.ms && '.' !in f.ms
  {
    var hms := SplitChar(p, ':');
    assert |hms| == 3;
    var sms := SplitChar(hms[2], '.');
    assert |sms| == 2;
    assert p == hms[0] + ([':'] + (hms[1] + ([':'] + hms[2])))
        && ':' !in hms[0] && ':' !in hms[1] && ':' !in hms[2] by {
      SplitCharJoin(p, ':');
      SplitCharNoSeparator(p, ':');
      assert JoinWith(hms[2..], [':']) == hms[2];
      assert JoinWith(hms[1..], [':']) == hms[1] + [':'] + hms[2];
    }
    assert hms[2] == sms[0] + (['.'] + sms[1]) && '.' !in sms[0] && '.' !in sms[1] by {
      SplitCharJoin(hms[2], '.');
      SplitCharNoSeparator(hms[2], '.');
      assert JoinWith(sms[1..], ['.']) == sms[1];
    }
  }

  /** Fields free of separators are recovered by splitting their formatted text. */
  lemma FormatSplitFields(f: Fields)
    requires ':' !in f.h && ':' !in f.m && ':' !in f.s && '.' !in f.s && ':' !in f.ms && '.' !in f.ms
    ensures SplitFields(Format(f)) == Some(f)
  {
    var last := f.s + ['.'] + f.ms;
    assert ':' !in last;
    assert Format(f) == f.h + [':'] + (f.m + [':'] + last);
    SplitCharFirst(f.h, ':', f.m + [':'] + last);
    SplitCharFirst(f.m, ':', last);
    SplitCharNone(last, ':');
    SplitCharFirst(f.s, '.', f.ms);
    SplitCharNone(f.ms, '.');
  }

  /** Four digit fields in the long layout never look like the short form. */
  lemma FormatNotShort(f: Fields)
    requires AllFields(f)
    ensures !IsShortForm(Format(f))
  {
    var t := Format(f);
    if |f.h| == 1 {
      assert t[1] == ':';
    } else if |f.h| >= 3 {
      assert t[2] == f.h[2];
    } else if |f.m| == 1 {
      assert t[4] == ':';
    } else if |f.m| == 2 {
      assert t[5] == ':';
    } else {
      assert t[5] == f.m[2];
    }
  }

  lemma DigitsExclude(f: string, c: char)
    requires AllDigits(f) && !IsDigit(c)
    ensures c !in f
  {
  }

  /** Any four digit fields, written in the long layout, read back as their value. */
  lemma FieldsRoundTrip(f: Fields)
    requires AllFields(f)
    ensures TimeToMillis(Format(f)) == Some(FieldsValue(f))
  {
    DigitsExclude(f.h, ':');
    DigitsExclude(f.m, ':');
    DigitsExclude(f.s, ':');
    DigitsExclude(f.ms, ':');
    DigitsExclude(f.s, '.');
    DigitsExclude(f.ms, '.');
    FormatNotShort(f);
    assert PadTimeString(Format(f)) == Format(f);
    FormatSplitFields(f);
  }

  /**
   A time is accepted only when, after padding, it is exactly four digit
   fields in the long layout, and its value is theirs; the padded text then
   holds exactly two colons.
   */
  lemma AcceptedTimesAreFields(t: string) returns (f: Fields)
    requires TimeToMillis(t).Some?
    ensures AllFields(f) && PadTimeString(t) == Format(f)
    ensures TimeToMillis(t) == Some(FieldsValue(f))
    ensures multiset(PadTimeString(t))[':'] == 2
    ensures multiset(PadTimeString(t))['.'] == 1
  {
    var p := PadTimeString(t);
    f := SplitFields(p).value;
    SplitFieldsFormat(p);
    FieldsMillisValue(f);
    assert multiset(p)[':'] == 2 by {
      SplitCharCount(p, ':');
    }
    DigitsExclude(f.h, '.');
    DigitsExclude(f.m, '.');
    DigitsExclude(f.s, '.');
    DigitsExclude(f.ms, '.');
    assert multiset(p) == multiset(f.h) + multiset([':']) + multiset(f.m) + multiset([':'])
      + multiset(f.s) + multiset(['.']) + multiset(f.ms);
  }

  /**
   After padding, a time needs exactly two colons and one dot: with more or
   fewer, one of the two unpackings fails and the time is rejected.
   */
  lemma WrongSeparatorsRejected(t: string)
    requires multiset(PadTimeString(t))[':'] != 2 || multiset(PadTimeString(t))['.'] != 1
    ensures TimeToMillis(t).None?
  {
    if TimeToMillis(t).Some? {
      var f := AcceptedTimesAreFields(t);
    }
  }

  /** Padding a second time changes nothing. */
  lemma PadIdempotent(t: string)
    ensures PadTimeString(PadTimeString(t)) == PadTimeString(t)
  {
    var r := PadTimeString(t);
    assert !IsShortForm(r);
  }

  function TwoDigits(t: string, k: nat): nat
    requires k + 2 <= |t| && IsDigit(t[k]) && IsDigit(t[k + 1])
  {
    DigitValue(t[k]) * 10 + DigitValue(t[k + 1])
  }

  /** The value of a long-form time read position by position. */
  function LongFormMillis(t: string): nat
    requires IsLongForm(t)
  {
    TwoDigits(t, 0) * 3600000 + TwoDigits(t, 3) * 60000 + TwoDigits(t, 6) * 1000
    + DigitValue(t[9]) * 100 + DigitValue(t[10]) * 10 + DigitValue(t[11])
  }

  /** The value of a short-form time read position by position. */
  function ShortFormMillis(t: string): nat
    requires IsShortForm(t)
  {
    TwoDigits(t, 0) * 60000 + TwoDigits(t, 3) * 1000
    + DigitValue(t[6]) * 100 + DigitValue(t[7]) * 10 + DigitValue(t[8])
  }

  lemma TwoDigitsValue(t: string, k: nat)
    requires k + 2 <= |t| && IsDigit(t[k]) && IsDigit(t[k + 1])
    ensures AllDigits(t[k..k + 2]) && DigitsValue(t[k..k + 2]) == TwoDigits(t, k)
  {
    var u := t[k..k + 2];
    var v := [t[k]];
    assert u[..1] == v && u[1] == t[k + 1];
    assert v[..0] == [];
    assert DigitsValue(v) == DigitValue(t[k]);
  }

  lemma ThreeDigitsValue(t: string, k: nat)
    requires k + 3 <= |t| && IsDigit(t[k]) && IsDigit(t[k + 1]) && IsDigit(t[k + 2])
    ensures AllDigits(t[k..k + 3])
    ensures DigitsValue(t[k..k + 3]) == DigitValue(t[k]) * 100 + DigitValue(t[k + 1]) * 10 + DigitValue(t[k + 2])
  {
    assert t[k..k + 3][..2] == t[k..k + 2];
    TwoDigitsValue(t, k);
  }

  /** A long-form time is its own four fields with their separators. */
  lemma LongFormIsFormatted(t: string)
    requires IsLongForm(t)
    ensures t == Format(Fields(t[0..2], t[3..5], t[6..8], t[9..12]))
  {
    var f := Fields(t[0..2], t[3..5], t[6..8], t[9..12]);
    assert t[8..] == ['.'] + t[9..12];
    assert t[6..] == f.s + t[8..];
    assert t[5..] == [':'] + t[6..];
    assert t[3..] == f.m + t[5..];
    assert t[2..] == [':'] + t[3..];
    assert t == f.h + t[2..];
  }

  /** A long-form time `hh:mm:ss.mmm` has the value of its digits. */
  lemma LongFormValue(t: string)
    requires IsLongForm(t)
    ensures TimeToMillis(t) == Some(LongFormMillis(t))
  {
    TwoDigitsValue(t, 0);
    TwoDigitsValue(t, 3);
    TwoDigitsValue(t, 6);
    ThreeDigitsValue(t, 9);
    LongFormIsFormatted(t);
    FieldsRoundTrip(Fields(t[0..2], t[3..5], t[6..8], t[9..12]));
  }

  /** A short-form time `mm:ss.mmm` is read with a zero hour field. */
  lemma ShortFormValue(t: string)
    requires IsShortForm(t) && |t| == 9
    ensures TimeToMillis(t) == Some(ShortFormMillis(t))
  {
    var p := "00:" + t;
    assert IsLongForm(p);
    LongFormValue(p);
    assert p[0] == '0' && p[1] == '0';
    assert p[3..] == t;
  }

  /** The short and the padded long form of the same time have the same key. */
  lemma ShortAndLongAgree(t: string)
    requires IsShortForm(t)
    ensures TimeToMillis(t) == TimeToMillis("00:" + t)
  {
    assert PadTimeString("00:" + t) == "00:" + t;
  }

  /** Without any ':' there is no hour or minute field: the time is rejected. */
  lemma NoColonRejected(t: string)
    requires ':' !in t
    ensures TimeToMillis(t) == None
  {
    assert !IsShortForm(t) by {
    }
    SplitCharNone(t, ':');
  }

  /** `01:02.003` is 62.003 seconds. */
  lemma ExampleShort()
    ensures TimeToMillis("01:02.003") == Some(62003)
  {
    var short := "01:02.003";
    assert IsShortForm(short);
    ShortFormValue(short);
    assert short[0] == '0' && short[1] == '1' && short[3] == '0' && short[4] == '2';
    assert short[6] == '0' && short[7] == '0' && short[8] == '3';
    assert ShortFormMillis(short) == 62003;
  }

  /** Its long form `00:01:02.003` is 62.003 seconds too. */
  lemma ExampleLong()
    ensures TimeToMillis("00:" + "01:02.003") == Some(62003)
  {
    ExampleShort();
    var short := "01:02.003";
    assert IsShortForm(short);
    ShortAndLongAgree(short);
  }

  /** `12.345` has no colon and is rejected. */
  lemma ExampleNoColon()
    ensures TimeToMillis("12.345") == None
  {
    var t := "12.345";
    assert forall i :: 0 <= i < |t| ==> t[i] != ':';
    NoColonRejected(t);
  }

  /** Half a second, in the short form. */
  lemma ExampleHalfSecond()
    ensures TimeToMillis("00:00.500") == Some(500)
  {
    var half := "00:00.500";
    assert IsShortForm(half);
    ShortFormValue(half);
    assert half[0] == '0' && half[1] == '0' && half[3] == '0' && half[4] == '0';
    assert half[6] == '5' && half[7] == '0' && half[8] == '0';
    assert ShortFormMillis(half) == 500;
  }
}
