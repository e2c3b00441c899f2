/**
 * The query string that points a calendar view at a date:
 * `?year=..&month=..&day=..&hour=..&minute=..&second=..`, cut after the first
 * `num` fields. It is built the way the source builds it: the `key=%d`
 * templates are sliced and joined with `&`, and the slice of field values is
 * substituted with `%`.
 */
module QueryString {
  import opened Wrappers

  /** The date-time fields the query string reads. */
  datatype DateTime = DateTime(year: int, month: int, day: int, hour: int, minute: int, second: int)

  /** The query keys, in order. */
  const Keys: seq<string> := ["year", "month", "day", "hour", "minute", "second"]

  /** The fields of `d` in the order of `Keys`. */
  function FieldValues(d: DateTime): (vs: seq<int>)
    ensures |vs| == |Keys|
  {
    [d.year, d.month, d.day, d.hour, d.minute, d.second]
  }

  /** The character of a decimal digit. */
  function DigitChar(n: int): (c: char)
    requires 0 <= n < 10
    ensures '0' <= c <= '9'
  {
    "0123456789"[n]
  }

  /** The value of a decimal digit character. */
  function DigitValue(c: char): int {
    if '0' <= c <= '9' then c as int - '0' as int else 0
  }

  /** The decimal digits of `n`, most significant first, without leading zeros. */
  function Digits(n: nat): (s: string)
    ensures |s| > 0
    decreases n
  {
    if n < 10 then [DigitChar(n)] else Digits(n / 10) + [DigitChar(n % 10)]
  }

  /** `'%d' % v`: the decimal form of `v`, with a leading `-` when negative. */
  function FormatInt(v: int): (s: string)
    ensures |s| > 0
  {
    if v < 0 then "-" + Digits(-v) else Digits(v)
  }

  /** The value of a string of decimal digits. */
  function ParseDigits(s: string): nat {
    if |s| == 0 then 0 else ParseDigits(s[..|s| - 1]) * 10 + (if '0' <= s[|s| - 1] <= '9' then DigitValue(s[|s| - 1]) else 0)
  }

  /** The value of a decimal integer with an optional leading `-`. */
  function ParseInt(s: string): int {
    if |s| > 0 && s[0] == '-' then -(ParseDigits(s[1..]) as int) else ParseDigits(s) as int
  }

  /** Reading back the digits of `n` gives `n`. */
  lemma {:induction false} DigitsRoundTrip(n: nat)
    ensures ParseDigits(Digits(n)) == n
    decreases n
  {
    if n >= 10 {
      DigitsRoundTrip(n / 10);
      var s := Digits(n);
      assert s[..|s| - 1] == Digits(n / 10);
    }
  }

  /** The first digit of `n` is a digit character, not a sign. */
  lemma {:induction false} DigitsLead(n: nat)
    ensures '0' <= Digits(n)[0] <= '9'
    decreases n
  {
    if n >= 10 {
      DigitsLead(n / 10);
      assert Digits(n)[0] == Digits(n / 10)[0];
    }
  }

  /** Reading back `'%d' % v` gives `v`: no two integers are formatted alike. */
  lemma FormatIntRoundTrip(v: int)
    ensures ParseInt(FormatInt(v)) == v
  {
    var s := FormatInt(v);
    if v < 0 {
      DigitsRoundTrip(-v);
      assert s == "-" + Digits(-v);
      assert s[0] == '-' && s[1..] == Digits(-v);
      assert ParseInt(s) == -(ParseDigits(Digits(-v)) as int);
    } else {
      DigitsRoundTrip(v);
      DigitsLead(v);
      assert s == Digits(v) && s[0] != '-';
      assert ParseInt(s) == ParseDigits(Digits(v)) as int;
    }
  }

  /**
   * Python's `template % args` for templates whose only conversions are `%d`:
   * each `%d` takes the next argument. Too few or too many arguments, or any
   * other conversion, is an error (None).
   */
  function Interpolate(template: string, args: seq<int>): Option<string>
    decreases |template|
  {
    if |template| == 0 then
      if |args| == 0 then Some("") else None
    else if template[0] != '%' then
      match Interpolate(template[1..], args)
      case Some(rest) => Some([template[0]] + rest)
      case None => None
    else if |template| >= 2 && template[1] == 'd' && |args| > 0 then
      match Interpolate(template[2..], args[1..])
      case Some(rest) => Some(FormatInt(args[0]) + rest)
      case None => None
    else None
  }

  /** Python's `sep.join(parts)`. */
  function Join(parts: seq<string>, sep: string): string {
    if |parts| == 0 then ""
    else if |parts| == 1 then parts[0]
    else parts[0] + sep + Join(parts[1..], sep)
  }

  /** How many items `xs[:num]` keeps of a six-item list, negative `num` counting from the end. */
  function SliceCount(num: int): (n: nat)
    ensures n <= |Keys|
    ensures 0 <= num ==> n == if num < |Keys| then num else |Keys|
    ensures num < 0 ==> n == if -num < |Keys| then |Keys| + num else 0
  {
    if num >= 0 then (if num < |Keys| then num else |Keys|)
    else if |Keys| + num > 0 then |Keys| + num else 0
  }

  /** The `key=%d` templates of the query string. */
  function Templates(keys: seq<string>): (ts: seq<string>)
    ensures |ts| == |keys|
  {
    if |keys| == 0 then [] else [keys[0] + "=%d"] + Templates(keys[1..])
  }

  /** The `key=value` parts the query string is meant to hold. */
  function Pairs(keys: seq<string>, vals: seq<int>): (ps: seq<string>)
    requires |keys| == |vals|
    ensures |ps| == |keys|
  {
    if |keys| == 0 then [] else [keys[0] + "=" + FormatInt(vals[0])] + Pairs(keys[1..], vals[1..])
  }

  /** `'?' + '&'.join(templates[:n]) % values[:n]` for the `key=%d` templates of `keys`. */
  function QueryStringOf(keys: seq<string>, vals: seq<int>, n: nat): string
    requires n <= |keys| == |vals|
  {
    var formatted := Interpolate(Join(Templates(keys)[..n], "&"), vals[..n]);
    "?" + (if formatted.Some? then formatted.value else "")
  }

  /** The query string for `date`, cut after `num` fields (a negative `num` drops fields from the end). */
  function QueryStringForDate(date: DateTime, num: int): string {
    QueryStringOf(Keys, FieldValues(date), SliceCount(num))
  }

  /** Text without `%` passes through `%` unchanged. */
  lemma {:induction false} InterpolateLiteral(lit: string, rest: string, args: seq<int>)
    requires '%' !in lit
    ensures Interpolate(lit + rest, args) ==
      match Interpolate(rest, args) case Some(s) => Some(lit + s) case None => None
    decreases |lit|
  {
    if |lit| > 0 {
      assert (lit + rest)[0] == lit[0];
      assert (lit + rest)[1..] == lit[1..] + rest;
      InterpolateLiteral(lit[1..], rest, args);
      match Interpolate(rest, args) {
        case Some(s) => assert [lit[0]] + (lit[1..] + s) == lit + s;
        case None =>
      }
    } else {
      assert lit + rest == rest;
      match Interpolate(rest, args) {
        case Some(s) => assert lit + s == s;
        case None =>
      }
    }
  }

  /** One `key=%d` template followed by more text takes one argument. */
  lemma InterpolateField(key: string, rest: string, v: int, vs: seq<int>)
    requires '%' !in key
    ensures Interpolate(key + "=%d" + rest, [v] + vs) ==
      match Interpolate(rest, vs) case Some(s) => Some(key + "=" + FormatInt(v) + s) case None => None
  {
    assert key + "=%d" + rest == (key + "=") + ("%d" + rest);
    InterpolateLiteral(key + "=", "%d" + rest, [v] + vs);
    var t := "%d" + rest;
    assert t[0] == '%' && t[1] == 'd' && t[2..] == rest;
    assert ([v] + vs)[1..] == vs;
    match Interpolate(rest, vs) {
      case Some(s) => assert (key + "=") + (FormatInt(v) + s) == key + "=" + FormatInt(v) + s;
      case None =>
    }
  }

  /**
   * Substituting the values into the joined templates gives the joined
   * `key=value` parts.
   */
  lemma {:induction false} InterpolateJoin(keys: seq<string>, vals: seq<int>)
    requires |keys| == |vals|
    requires forall i :: 0 <= i < |keys| ==> '%' !in keys[i]
    ensures Interpolate(Join(Templates(keys), "&"), vals) == Some(Join(Pairs(keys, vals), "&"))
    decreases |keys|
  {
    if |keys| == 1 {
      InterpolateJoinSingle(keys, vals);
    } else if |keys| > 1 {
      InterpolateJoin(keys[1..], vals[1..]);
      InterpolateJoinStep(keys, vals);
    }
  }

  /** A single template takes the single value. */
  lemma InterpolateJoinSingle(keys: seq<string>, vals: seq<int>)
    requires |keys| == |vals| == 1 && '%' !in keys[0]
    ensures Interpolate(Join(Templates(keys), "&"), vals) == Some(Join(Pairs(keys, vals), "&"))
  {
    assert Join(Templates(keys), "&") == keys[0] + "=%d" + "";
    assert Join(Pairs(keys, vals), "&") == keys[0] + "=" + FormatInt(vals[0]) + "";
    InterpolateField(keys[0], "", vals[0], []);
    assert [vals[0]] + [] == vals;
  }

  /** The induction step of `InterpolateJoin`: one more template in front. */
  lemma InterpolateJoinStep(keys: seq<string>, vals: seq<int>)
    requires |keys| == |vals| > 1 && '%' !in keys[0]
    requires Interpolate(Join(Templates(keys[1..]), "&"), vals[1..]) == Some(Join(Pairs(keys[1..], vals[1..]), "&"))
    ensures Interpolate(Join(Templates(keys), "&"), vals) == Some(Join(Pairs(keys, vals), "&"))
  {
    var rest := Join(Templates(keys[1..]), "&");
    var restOut := Join(Pairs(keys[1..], vals[1..]), "&");
    JoinTemplatesFront(keys);
    JoinPairsFront(keys, vals);
    InterpolateFront(keys[0], vals[0], rest, vals[1..], restOut);
    assert [vals[0]] + vals[1..] == vals;
  }

  /** The joined templates are the first template, `&`, and the joined rest. */
  lemma JoinTemplatesFront(keys: seq<string>)
    requires |keys| > 1
    ensures Join(Templates(keys), "&") == keys[0] + "=%d" + ("&" + Join(Templates(keys[1..]), "&"))
  {
    var ts := Templates(keys);
    assert ts[1..] == Templates(keys[1..]);
  }

  /** The joined parts are the first part, `&`, and the joined rest. */
  lemma JoinPairsFront(keys: seq<string>, vals: seq<int>)
    requires |keys| == |vals| > 1
    ensures Join(Pairs(keys, vals), "&") == keys[0] + "=" + FormatInt(vals[0]) + ("&" + Join(Pairs(keys[1..], vals[1..]), "&"))
  {
    var ps := Pairs(keys, vals);
    assert ps[1..] == Pairs(keys[1..], vals[1..]);
  }

  /** A first `key=%d&` in front of a template that interpolates takes the first argument. */
  lemma InterpolateFront(key: string, v: int, rest: string, vs: seq<int>, restOut: string)
    requires '%' !in key
    requires Interpolate(rest, vs) == Some(restOut)
    ensures Interpolate(key + "=%d" + ("&" + rest), [v] + vs) == Some(key + "=" + FormatInt(v) + ("&" + restOut))
  {
    InterpolateLiteral("&", rest, vs);
    InterpolateField(key, "&" + rest, v, vs);
  }

  /** Part `i` names key `i` and value `i`. */
  lemma {:induction false} PairsAt(keys: seq<string>, vals: seq<int>, i: nat)
    requires |keys| == |vals| && i < |keys|
    ensures Pairs(keys, vals)[i] == keys[i] + "=" + FormatInt(vals[i])
    decreases i
  {
    if i > 0 {
      PairsAt(keys[1..], vals[1..], i - 1);
    }
  }

  /** Slicing commutes with building the templates and the parts. */
  lemma {:induction false} PrefixOfParts(keys: seq<string>, vals: seq<int>, n: nat)
    requires |keys| == |vals| && n <= |keys|
    ensures Templates(keys)[..n] == Templates(keys[..n])
    ensures Pairs(keys, vals)[..n] == Pairs(keys[..n], vals[..n])
    decreases n
  {
    if n > 0 {
      PrefixOfParts(keys[1..], vals[1..], n - 1);
      assert keys[..n][1..] == keys[1..][..n - 1];
      assert vals[..n][1..] == vals[1..][..n - 1];
    }
  }

  /** The query string holds the first `n` `key=value` parts, joined by `&`. */
  lemma QueryStringOfParts(keys: seq<string>, vals: seq<int>, n: nat)
    requires n <= |keys| == |vals|
    requires forall i :: 0 <= i < |keys| ==> '%' !in keys[i]
    ensures QueryStringOf(keys, vals, n) == "?" + Join(Pairs(keys[..n], vals[..n]), "&")
  {
    PrefixOfParts(keys, vals, n);
    InterpolateJoin(keys[..n], vals[..n]);
  }

  /**
   * The query string is `?` followed by the first `SliceCount(num)` of
   * `year=..`, `month=..`, `day=..`, `hour=..`, `minute=..`, `second=..`,
   * each with the date's field, joined by `&`.
   */
  lemma QueryStringParts(date: DateTime, num: int)
    ensures QueryStringForDate(date, num) ==
      "?" + Join(Pairs(Keys[..SliceCount(num)], FieldValues(date)[..SliceCount(num)]), "&")
  {
    forall i | 0 <= i < |Keys| ensures '%' !in Keys[i] {
    }
    QueryStringOfParts(Keys, FieldValues(date), SliceCount(num));
  }

  /** With `num = 0` the query string is just `?`. */
  lemma QueryStringEmpty(date: DateTime)
    ensures QueryStringForDate(date, 0) == "?"
  {
    QueryStringParts(date, 0);
  }

  /** With the default `num = 6` the query string names all six fields. */
  lemma QueryStringAllFields(date: DateTime)
    ensures QueryStringForDate(date, 6) ==
      "?" + Join(["year=" + FormatInt(date.year), "month=" + FormatInt(date.month), "day=" + FormatInt(date.day),
                  "hour=" + FormatInt(date.hour), "minute=" + FormatInt(date.minute), "second=" + FormatInt(date.second)], "&")
  {
    QueryStringParts(date, 6);
    assert Keys[..6] == Keys && FieldValues(date)[..6] == FieldValues(date);
    var ps := Pairs(Keys, FieldValues(date));
    forall i | 0 <= i < 6 ensures ps[i] == Keys[i] + "=" + FormatInt(FieldValues(date)[i]) {
      PairsAt(Keys, FieldValues(date), i);
    }
    assert ps == ["year=" + FormatInt(date.year), "month=" + FormatInt(date.month), "day=" + FormatInt(date.day),
                  "hour=" + FormatInt(date.hour), "minute=" + FormatInt(date.minute), "second=" + FormatInt(date.second)] by {
      assert Keys[0] + "=" == "year=" && Keys[1] + "=" == "month=" && Keys[2] + "=" == "day=";
      assert Keys[3] + "=" == "hour=" && Keys[4] + "=" == "minute=" && Keys[5] + "=" == "second=";
    }
  }
}
