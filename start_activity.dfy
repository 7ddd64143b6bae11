/** The start screen's logic (src/renderer/components/privileged/screens/StartActivity.tsx):
    the interval label, the preset intervals, and the validation of the start
    form into a `setGestureAppState` message. */
module StartActivity {
  import opened Util
  import opened GestureAppTypes
  import opened Messages

  // ---- JavaScript string and number primitives ------------------------------

  /** The characters `String.prototype.trim` and `parseInt` skip: the
      WhiteSpace and LineTerminator code points of ECMAScript. */
  predicate IsJsSpace(c: char) {
    var n := c as int;
    n == 0x09 || n == 0x0A || n == 0x0B || n == 0x0C || n == 0x0D || n == 0x20 || n == 0xA0 ||
    n == 0x1680 || (0x2000 <= n <= 0x200A) || n == 0x2028 || n == 0x2029 || n == 0x202F ||
    n == 0x205F || n == 0x3000 || n == 0xFEFF
  }

  function TrimStart(s: string): (r: string)
    ensures |r| <= |s|
    ensures r == [] || !IsJsSpace(r[0])
    decreases |s|
  {
    if s != [] && IsJsSpace(s[0]) then TrimStart(s[1..]) else s
  }

  function TrimEnd(s: string): (r: string)
    ensures |r| <= |s|
    ensures r == [] || !IsJsSpace(r[|r| - 1])
    decreases |s|
  {
    if s != [] && IsJsSpace(s[|s| - 1]) then TrimEnd(s[..|s| - 1]) else s
  }

  /** `String.prototype.trim`. */
  function Trim(s: string): string {
    TrimEnd(TrimStart(s))
  }

  /** JavaScript's division truncated toward zero, for a positive divisor. */
  function TruncDiv(a: int, b: int): int
    requires b > 0
  {
    if a >= 0 then a / b else -((-a) / b)
  }

  /** Euclidean division by a positive divisor is determined by any quotient
      and remainder that fit. */
  lemma DivUnique(a: int, b: int, q: int, r: int)
    requires b > 0 && a == b * q + r && 0 <= r < b
    ensures a / b == q && a % b == r
  {
    var q', r' := a / b, a % b;
    assert b * (q' - q) == r - r';
    if q' > q {
      MulAtLeast(b, q' - q);
    } else if q' < q {
      assert b * (q - q') == r' - r;
      MulAtLeast(b, q - q');
    }
  }

  lemma MulAtLeast(b: int, d: int)
    requires b > 0 && d >= 1
    ensures b * d >= b
  {
    assert b * d == b + b * (d - 1);
  }

  // ---- intervalText ---------------------------------------------------------

  /** `Math.floor(ms / 1000 / 60)`. */
  function MinutesPart(ms: int): int {
    ms / 60000
  }

  /** `Math.floor((ms / 1000) % 60)`: `%` keeps the dividend's sign, so it is
      `x - 60 * trunc(x / 60)` for `x = ms / 1000`. */
  function SecondsPart(ms: int): int {
    ms / 1000 - 60 * TruncDiv(ms, 60000)
  }

  /** For a non-negative interval the seconds part is the remainder of whole
      seconds within the minute; a negative interval has none. */
  lemma SecondsPartRange(ms: int)
    ensures ms >= 0 ==> SecondsPart(ms) == (ms / 1000) % 60 && 0 <= SecondsPart(ms) < 60
    ensures ms < 0 ==> SecondsPart(ms) <= 0 && MinutesPart(ms) < 0
  {
    if ms >= 0 {
      var q, r := ms / 60000, ms % 60000;
      var r1, r0 := r / 1000, r % 1000;
      assert ms == 1000 * (60 * q + r1) + r0;
      DivUnique(ms, 1000, 60 * q + r1, r0);
      DivUnique(ms / 1000, 60, q, r1);
    } else {
      var n := -ms;
      var q, r := n / 60000, n % 60000;
      var a, b := (-r) / 1000, (-r) % 1000;
      assert -r == 1000 * a + b;
      assert ms == 1000 * (-60 * q + a) + b;
      DivUnique(ms, 1000, -60 * q + a, b);
      assert a <= 0;
    }
  }

  function MinStr(ms: int): string {
    if MinutesPart(ms) > 0 then Decimal(MinutesPart(ms)) + " min" else ""
  }

  function SecStr(ms: int): string {
    if SecondsPart(ms) > 0 then Decimal(SecondsPart(ms)) + " s" else ""
  }

  /** `intervalText`: the label beside the interval slider. */
  function IntervalText(ms: int): string {
    var minStr, secStr := MinStr(ms), SecStr(ms);
    if minStr == "" && secStr == "" then "" else Trim(minStr + " " + secStr)
  }

  /** The text ends are characters `trim` keeps. */
  predicate Tight(t: string) {
    t != [] && !IsJsSpace(t[0]) && !IsJsSpace(t[|t| - 1])
  }

  lemma TrimKeeps(t: string)
    requires Tight(t)
    ensures Trim(t) == t
  {
  }

  lemma TrimDropsTrailingSpace(t: string)
    requires Tight(t)
    ensures Trim(t + " ") == t
  {
    assert (t + " ")[0] == t[0];
    assert TrimStart(t + " ") == t + " ";
    assert (t + " ")[..|t|] == t;
    assert TrimEnd(t + " ") == TrimEnd(t);
    assert TrimEnd(t) == t;
  }

  lemma TrimDropsLeadingSpace(t: string)
    requires Tight(t)
    ensures Trim(" " + t) == t
  {
    assert (" " + t)[1..] == t;
    assert TrimStart(" " + t) == TrimStart(t);
    assert TrimStart(t) == t;
    assert TrimEnd(t) == t;
  }

  /** `${n} min`, `${n} s` and the two joined by a space are tight. */
  lemma LabelTight(n: nat, unit: string)
    requires unit != [] && !IsJsSpace(unit[|unit| - 1])
    ensures Tight(Decimal(n) + unit)
  {
    var d := Decimal(n);
    assert (d + unit)[0] == d[0] && IsDigit(d[0]);
    assert (d + unit)[|d + unit| - 1] == unit[|unit| - 1];
  }

  lemma JoinTight(a: string, b: string)
    requires Tight(a) && Tight(b)
    ensures Tight(a + " " + b)
  {
    assert (a + " " + b)[0] == a[0];
    assert (a + " " + b)[|a + " " + b| - 1] == b[|b| - 1];
  }

  /** The label is `"N min M s"`, `"N min"`, `"M s"` or `""`, according to which
      parts are positive: the separating space is dropped with an empty part. */
  lemma IntervalTextShape(ms: int)
    ensures var m, s := MinutesPart(ms), SecondsPart(ms);
      IntervalText(ms) ==
        if m > 0 && s > 0 then Decimal(m) + " min " + Decimal(s) + " s"
        else if m > 0 then Decimal(m) + " min"
        else if s > 0 then Decimal(s) + " s"
        else ""
  {
    var m, s := MinutesPart(ms), SecondsPart(ms);
    if m > 0 {
      LabelTight(m, " min");
    }
    if s > 0 {
      LabelTight(s, " s");
    }
    if m > 0 && s > 0 {
      var a, b := Decimal(m) + " min", Decimal(s) + " s";
      JoinTight(a, b);
      TrimKeeps(a + " " + b);
      assert a + " " + b == Decimal(m) + " min " + Decimal(s) + " s";
    } else if m > 0 {
      TrimDropsTrailingSpace(Decimal(m) + " min");
      assert MinStr(ms) + " " + SecStr(ms) == Decimal(m) + " min" + " ";
    } else if s > 0 {
      TrimDropsLeadingSpace(Decimal(s) + " s");
      assert MinStr(ms) + " " + SecStr(ms) == " " + (Decimal(s) + " s");
    }
  }

  /** The label is empty exactly for intervals under one second. */
  lemma IntervalTextEmpty(ms: int)
    ensures IntervalText(ms) == "" <==> ms < 1000
  {
    IntervalTextShape(ms);
    SecondsPartRange(ms);
    if 0 <= ms < 60000 {
      DivUnique(ms, 60000, 0, ms);
    }
  }

  /** A non-empty label never begins or ends with white space. */
  lemma IntervalTextTrimmed(ms: int)
    ensures IntervalText(ms) != "" ==> Tight(IntervalText(ms))
  {
    IntervalTextShape(ms);
    var m, s := MinutesPart(ms), SecondsPart(ms);
    if m > 0 {
      LabelTight(m, " min");
    }
    if s > 0 {
      LabelTight(s, " s");
    }
    if m > 0 && s > 0 {
      JoinTight(Decimal(m) + " min", Decimal(s) + " s");
      assert Decimal(m) + " min " + Decimal(s) + " s" == Decimal(m) + " min" + " " + (Decimal(s) + " s");
    }
  }

  // ---- predefinedIntervals --------------------------------------------------

  /** The preset buttons: label and interval in milliseconds. */
  const PredefinedIntervals: seq<(string, int)> := [
    ("10 sec", 10000), ("30 sec", 30000), ("1 min", 60000), ("2 min", 120000),
    ("3 min", 180000), ("4 min", 240000), ("5 min", 300000), ("10 min", 600000)]

  /** The interval slider's range and step. */
  const SliderMin: int := 10000
  const SliderMax: int := 600000
  const SliderStep: int := 1000

  /** Every preset is a position the slider can take, and the presets rise
      strictly. */
  lemma PredefinedIntervalsOnSlider()
    ensures forall k :: 0 <= k < |PredefinedIntervals| ==>
      SliderMin <= PredefinedIntervals[k].1 <= SliderMax && PredefinedIntervals[k].1 % SliderStep == 0
    ensures forall j, k :: 0 <= j < k < |PredefinedIntervals| ==> PredefinedIntervals[j].1 < PredefinedIntervals[k].1
  {
  }

  // ---- parseInt and the start form ------------------------------------------

  /** The longest prefix of decimal digits. */
  function DigitPrefix(s: string): (r: string)
    ensures |r| <= |s| && r == s[..|r|] && AllDigits(r)
    ensures |r| < |s| ==> !IsDigit(s[|r|])
    decreases |s|
  {
    if s != [] && IsDigit(s[0]) then [s[0]] + DigitPrefix(s[1..]) else []
  }

  /** A text after an optional sign, and whether the sign was a minus. */
  datatype Signed = Signed(negative: bool, body: string)

  /** Reads at most one leading `-` or `+`. */
  function SplitSign(t: string): Signed {
    if t != [] && t[0] == '-' then Signed(true, t[1..])
    else if t != [] && t[0] == '+' then Signed(false, t[1..])
    else Signed(false, t)
  }

  /** The value of the leading digits of a signed text, if there are any. */
  function SignedValue(sg: Signed): (r: Option<int>)
    ensures r.Some? <==> sg.body != [] && IsDigit(sg.body[0])
  {
    var digits := DigitPrefix(sg.body);
    if digits == [] then None
    else
      var v: int := DigitsValue(digits);
      Some(if sg.negative then -v else v)
  }

  /** `Number.parseInt(s, 10)`; `None` is `NaN`. Leading white space is
      skipped, one sign is read, then the longest run of digits. */
  function ParseInt(s: string): (r: Option<int>)
    ensures var body := SplitSign(TrimStart(s)).body;
      r.Some? <==> body != [] && IsDigit(body[0])
  {
    SignedValue(SplitSign(TrimStart(s)))
  }

  lemma DigitPrefixOfDigits(s: string)
    requires AllDigits(s)
    ensures DigitPrefix(s) == s
  {
  }

  /** A run of digits reads as its value. */
  lemma ParseIntOfDigits(d: string)
    requires d != [] && AllDigits(d)
    ensures ParseInt(d) == Some(DigitsValue(d) as int)
  {
    DigitPrefixOfDigits(d);
    assert IsDigit(d[0]);
    assert TrimStart(d) == d;
    assert SplitSign(d) == Signed(false, d);
  }

  /** A numeral reads back as the number it was written from. */
  lemma ParseIntOfDecimal(n: nat)
    ensures ParseInt(Decimal(n)) == Some(n as int)
  {
    ParseIntOfDigits(Decimal(n));
    DigitsValueOfDecimal(n);
  }

  /** The text `null` a missing form field turns into reads as `NaN`, and
      so does the empty string. */
  lemma ParseIntRejects()
    ensures ParseInt("null") == None
    ensures ParseInt("") == None
  {
    assert TrimStart("null") == "null";
  }

  /** `formData.get(key) as string` handed to `parseInt`: a missing field is
      `null`, which `parseInt` reads as the text `null`. */
  function FieldText(form: map<string, string>, key: string): string {
    if key in form then form[key] else "null"
  }

  /** The `startSlideShow` handler up to the send: no form, or an interval or
      greyscale that is `NaN`, sends nothing; otherwise the message asks for
      a slideshow with the parsed numbers and the flip flag set exactly when
      the switch's field is `"on"`. */
  function StartSlideShowMessage(form: Option<map<string, string>>): (r: Option<SetGestureAppStateData>)
    ensures r.Some? <==>
      (form.Some? &&
       ParseInt(FieldText(form.value, "slideShowInterval")).Some? && ParseInt(FieldText(form.value, "greyscale")).Some?)
    ensures r.Some? ==>
      r.value.newGestureAppState == Slideshow &&
      r.value.slideShowInterval == ParseInt(FieldText(form.value, "slideShowInterval")) &&
      r.value.greyscale == ParseInt(FieldText(form.value, "greyscale")) &&
      r.value.randomFlip == Some("randomFlip" in form.value && form.value["randomFlip"] == "on")
  {
    if form.None? then None
    else
      var f := form.value;
      match ParseInt(FieldText(f, "slideShowInterval"))
      case None => None
      case Some(interval) =>
        match ParseInt(FieldText(f, "greyscale"))
        case None => None
        case Some(greyscale) =>
          Some(SetGestureAppStateData(Slideshow, Some(interval), Some(greyscale),
                                      Some("randomFlip" in f && f["randomFlip"] == "on")))
  }

  /** A form as the sliders submit it, the interval and greyscale as numerals,
      yields a message carrying exactly those numbers, and that message passes
      the envelope check as a `setGestureAppState` message. */
  lemma StartFromSliders(form: map<string, string>, interval: nat, greyscale: nat)
    requires "slideShowInterval" in form && form["slideShowInterval"] == Decimal(interval)
    requires "greyscale" in form && form["greyscale"] == Decimal(greyscale)
    ensures var r := StartSlideShowMessage(Some(form));
      r.Some? && r.value.slideShowInterval == Some(interval) && r.value.greyscale == Some(greyscale) &&
      AsBaseMessage(EncodeSetGestureAppState(r.value)).Some? &&
      IsSetGestureAppStateMessage(AsBaseMessage(EncodeSetGestureAppState(r.value)).value) &&
      EncodeSetGestureAppState(r.value).fields["data"].fields["slideShowInterval"] == JNumber(interval as real) &&
      EncodeSetGestureAppState(r.value).fields["data"].fields["greyscale"] == JNumber(greyscale as real) &&
      EncodeSetGestureAppState(r.value).fields["data"].fields["newGestureAppState"] == JString("slideshow")
  {
    ParseIntOfDecimal(interval);
    ParseIntOfDecimal(greyscale);
    EncodedSetGestureAppStateIsRecognised(StartSlideShowMessage(Some(form)).value);
  }

  /** A form without an interval field sends nothing. */
  lemma MissingIntervalSendsNothing(form: map<string, string>)
    requires "slideShowInterval" !in form
    ensures StartSlideShowMessage(Some(form)).None?
  {
    ParseIntRejects();
  }
}
