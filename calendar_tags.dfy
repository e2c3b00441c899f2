/**
 * The two template tags that put a calendar for an object into the template
 * context. Their parsers turn the tag's tokens into a record naming the
 * object, the optional distinction, the context variable and (for the
 * creating tag) the optional calendar name, or reject the tag.
 */
module CalendarTags {
  import opened Wrappers

  /** The tokens of a tag, as the template parser splits it; the first is the tag's name. */
  type Tokens = seq<string>

  /**
   * How parsing fails: the tag does not have the required form, or a token
   * that should follow a keyword (or the first character of an empty name,
   * or the tag's own name) is read past the end.
   */
  datatype TagError = SyntaxError | IndexError

  /** `{% get_calendar obj [distinction] as var %}`. */
  datatype CalendarRef = CalendarRef(contentObject: string, distinction: Option<string>, contextVar: string)

  /** `{% get_or_create_calendar obj [named name] [by distinction] as var %}`. */
  datatype CreateCalendarRef =
    CreateCalendarRef(contentObject: string, distinction: Option<string>, contextVar: string, name: Option<string>)

  /**
   * The parser of `get_calendar`: four tokens give the object and the context
   * variable, five add the distinction in third place; the keyword `as` is
   * not checked. Any other count is a syntax error, whose message reads the
   * tag's name.
   */
  function ParseGetCalendar(contents: Tokens): (r: Result<CalendarRef, TagError>)
    ensures r.Ok? <==> |contents| == 4 || |contents| == 5
    ensures r.Ok? ==> r.value.contentObject == contents[1] && r.value.contextVar == contents[|contents| - 1]
    ensures r.Ok? ==> (r.value.distinction.Some? <==> |contents| == 5)
    ensures r.Ok? && |contents| == 5 ==> r.value.distinction == Some(contents[2])
    ensures r.Err? ==> (r.error == IndexError <==> |contents| == 0)
  {
    if |contents| == 4 then Ok(CalendarRef(contents[1], None, contents[3]))
    else if |contents| == 5 then Ok(CalendarRef(contents[1], Some(contents[2]), contents[4]))
    else if |contents| == 0 then Err(IndexError)
    else Err(SyntaxError)
  }

  /** The tokens of a `get_calendar` tag that names `ref`. */
  function RenderGetCalendar(tag: string, ref: CalendarRef): Tokens {
    match ref.distinction
    case None => [tag, ref.contentObject, "as", ref.contextVar]
    case Some(d) => [tag, ref.contentObject, d, "as", ref.contextVar]
  }

  /** Parsing the tokens of a `get_calendar` tag gives back what they name. */
  lemma GetCalendarRoundTrip(tag: string, ref: CalendarRef)
    ensures ParseGetCalendar(RenderGetCalendar(tag, ref)) == Ok(ref)
  {
  }

  /** Python's `list.index`: the position of the first `x`. */
  function IndexOf(xs: Tokens, x: string): (i: nat)
    requires x in xs
    ensures i < |xs| && xs[i] == x
    ensures forall j :: 0 <= j < i ==> xs[j] != x
  {
    if xs[0] == x then 0 else 1 + IndexOf(xs[1..], x)
  }

  /**
   * The token after the first `keyword`, None when there is no `keyword`,
   * and an error when the keyword is the last token.
   */
  function AfterKeyword(contents: Tokens, keyword: string): (r: Result<Option<string>, TagError>)
    ensures r == Ok(None) <==> keyword !in contents
    ensures r.Err? <==> keyword in contents && IndexOf(contents, keyword) == |contents| - 1
    ensures r.Err? ==> r.error == IndexError
    ensures r.Ok? && r.value.Some? ==>
      keyword in contents && IndexOf(contents, keyword) + 1 < |contents| &&
      r.value.value == contents[IndexOf(contents, keyword) + 1]
  {
    if keyword !in contents then Ok(None)
    else
      var i := IndexOf(contents, keyword);
      if i + 1 < |contents| then Ok(Some(contents[i + 1])) else Err(IndexError)
  }

  /** `name[1:-1]` when the name's first and last characters are the same (its quotes). */
  function StripQuotes(name: string): (r: Result<string, TagError>)
    ensures r.Err? <==> |name| == 0
    ensures |name| >= 2 && name[0] == name[|name| - 1] ==> r == Ok(name[1..|name| - 1])
    ensures |name| == 1 ==> r == Ok("")
    ensures |name| >= 2 && name[0] != name[|name| - 1] ==> r == Ok(name)
  {
    if |name| == 0 then Err(IndexError)
    else if name[0] == name[|name| - 1] then Ok(if |name| >= 2 then name[1..|name| - 1] else "")
    else Ok(name)
  }

  /**
   * The parser of `get_or_create_calendar`: at least three tokens, the
   * object second; the distinction follows the first `by`, the name the
   * first `named` (with its quotes stripped) and the context variable the
   * first `as`, which is required. The keywords are looked up in that order,
   * so a keyword in last place fails before a missing `as` is noticed.
   */
  function ParseGetOrCreateCalendar(contents: Tokens): (r: Result<CreateCalendarRef, TagError>)
    ensures r.Ok? ==> |contents| > 2 && r.value.contentObject == contents[1]
    ensures r.Ok? ==> "as" in contents && IndexOf(contents, "as") + 1 < |contents| &&
                      r.value.contextVar == contents[IndexOf(contents, "as") + 1]
    ensures r.Ok? ==> (r.value.distinction.Some? <==> "by" in contents)
    ensures r.Ok? && "by" in contents ==>
      IndexOf(contents, "by") + 1 < |contents| && r.value.distinction.value == contents[IndexOf(contents, "by") + 1]
    ensures r.Ok? ==> (r.value.name.Some? <==> "named" in contents)
    ensures r.Ok? && "named" in contents ==>
      IndexOf(contents, "named") + 1 < |contents| &&
      StripQuotes(contents[IndexOf(contents, "named") + 1]) == Ok(r.value.name.value)
    ensures 0 < |contents| <= 2 ==> r == Err(SyntaxError)
    ensures |contents| == 0 ==> r == Err(IndexError)
  {
    if |contents| == 0 then Err(IndexError)
    else if |contents| <= 2 then Err(SyntaxError)
    else
      var obj := contents[1];
      match AfterKeyword(contents, "by")
      case Err(e) => Err(e)
      case Ok(distinction) =>
        match AfterKeyword(contents, "named")
        case Err(e) => Err(e)
        case Ok(named) =>
          var name :=
            match named
            case None => Ok(None)
            case Some(n) => (match StripQuotes(n) case Ok(s) => Ok(Some(s)) case Err(e) => Err(e));
          match name
          case Err(e) => Err(e)
          case Ok(nm) =>
            match AfterKeyword(contents, "as")
            case Err(e) => Err(e)
            case Ok(None) => Err(SyntaxError)
            case Ok(Some(contextVar)) => Ok(CreateCalendarRef(obj, distinction, contextVar, nm))
  }

  /** A token the parser could take for one of its keywords. */
  predicate IsKeyword(t: string) {
    t == "by" || t == "named" || t == "as"
  }

  /** The tokens of a `get_or_create_calendar` tag that names `ref`, the name quoted with `quote`. */
  function RenderGetOrCreateCalendar(tag: string, ref: CreateCalendarRef, quote: char): Tokens {
    [tag, ref.contentObject]
    + (match ref.name case None => [] case Some(n) => ["named", [quote] + n + [quote]])
    + (match ref.distinction case None => [] case Some(d) => ["by", d])
    + ["as", ref.contextVar]
  }

  /**
   * Parsing the tokens of a `get_or_create_calendar` tag gives back what they
   * name, as long as no word of the tag is itself a keyword.
   */
  lemma GetOrCreateCalendarRoundTrip(tag: string, ref: CreateCalendarRef, quote: char)
    requires !IsKeyword(tag) && !IsKeyword(ref.contentObject) && !IsKeyword(ref.contextVar)
    requires ref.distinction.Some? ==> !IsKeyword(ref.distinction.value)
    ensures ParseGetOrCreateCalendar(RenderGetOrCreateCalendar(tag, ref, quote)) == Ok(ref)
  {
    var ts := RenderGetOrCreateCalendar(tag, ref, quote);
    RenderedShape(tag, ref, quote);
    RenderedNamed(tag, ref, quote);
    RenderedBy(tag, ref, quote);
    RenderedAs(tag, ref, quote);
    if ref.name.Some? {
      var n := [quote] + ref.name.value + [quote];
      assert n[1..|n| - 1] == ref.name.value;
      assert StripQuotes(n) == Ok(ref.name.value);
    }
  }

  /** The rendered tokens: tag, object, the optional `named` and `by` pairs, then `as` and the variable. */
  lemma RenderedShape(tag: string, ref: CreateCalendarRef, quote: char)
    ensures var ts := RenderGetOrCreateCalendar(tag, ref, quote);
      && |ts| == 4 + (if ref.name.Some? then 2 else 0) + (if ref.distinction.Some? then 2 else 0)
      && ts[0] == tag && ts[1] == ref.contentObject
      && ts[|ts| - 2] == "as" && ts[|ts| - 1] == ref.contextVar
  {
  }

  /** In the rendered tokens `named` is followed by the quoted name, or is absent. */
  lemma RenderedNamed(tag: string, ref: CreateCalendarRef, quote: char)
    requires !IsKeyword(tag) && !IsKeyword(ref.contentObject) && !IsKeyword(ref.contextVar)
    requires ref.distinction.Some? ==> !IsKeyword(ref.distinction.value)
    ensures AfterKeyword(RenderGetOrCreateCalendar(tag, ref, quote), "named") ==
      Ok(if ref.name.Some? then Some([quote] + ref.name.value + [quote]) else None)
  {
    var ts := RenderGetOrCreateCalendar(tag, ref, quote);
    if ref.name.Some? {
      assert ts[2] == "named" && ts[3] == [quote] + ref.name.value + [quote];
      FirstAt(ts, "named", 2);
    } else {
      assert forall j :: 0 <= j < |ts| ==> ts[j] != "named";
    }
  }

  /** In the rendered tokens `by` is followed by the distinction, or is absent. */
  lemma RenderedBy(tag: string, ref: CreateCalendarRef, quote: char)
    requires !IsKeyword(tag) && !IsKeyword(ref.contentObject) && !IsKeyword(ref.contextVar)
    requires ref.distinction.Some? ==> !IsKeyword(ref.distinction.value)
    ensures AfterKeyword(RenderGetOrCreateCalendar(tag, ref, quote), "by") == Ok(ref.distinction)
  {
    var ts := RenderGetOrCreateCalendar(tag, ref, quote);
    var k := if ref.name.Some? then 4 else 2;
    if ref.name.Some? {
      QuotedIsNoKeyword(quote, ref.name.value);
    }
    assert forall j :: 0 <= j < k ==> ts[j] != "by";
    if ref.distinction.Some? {
      assert ts[k] == "by" && ts[k + 1] == ref.distinction.value;
      FirstAt(ts, "by", k);
    } else {
      assert forall j :: 0 <= j < |ts| ==> ts[j] != "by";
    }
  }

  /** In the rendered tokens the first `as` is the one before the variable. */
  lemma RenderedAs(tag: string, ref: CreateCalendarRef, quote: char)
    requires !IsKeyword(tag) && !IsKeyword(ref.contentObject) && !IsKeyword(ref.contextVar)
    requires ref.distinction.Some? ==> !IsKeyword(ref.distinction.value)
    ensures AfterKeyword(RenderGetOrCreateCalendar(tag, ref, quote), "as") == Ok(Some(ref.contextVar))
  {
    var ts := RenderGetOrCreateCalendar(tag, ref, quote);
    if ref.name.Some? {
      QuotedIsNoKeyword(quote, ref.name.value);
    }
    assert forall j :: 0 <= j < |ts| - 2 ==> ts[j] != "as";
    assert ts[|ts| - 2] == "as" && ts[|ts| - 1] == ref.contextVar;
    FirstAt(ts, "as", |ts| - 2);
  }

  /** A token found at `i` and nowhere before is found by `list.index` at `i`. */
  lemma FirstAt(xs: Tokens, x: string, i: nat)
    requires i < |xs| && xs[i] == x
    requires forall j :: 0 <= j < i ==> xs[j] != x
    ensures x in xs && IndexOf(xs, x) == i
  {
  }

  /** A quoted name has the same first and last character, which no keyword has. */
  lemma QuotedIsNoKeyword(quote: char, name: string)
    ensures !IsKeyword([quote] + name + [quote])
  {
    var q := [quote] + name + [quote];
    assert q[0] == q[|q| - 1];
    assert "by"[0] != "by"[1] && "as"[0] != "as"[1] && "named"[0] != "named"[4];
  }

  /**
   * The creating tag fails exactly in these cases: a keyword it looks up is
   * the last token, the name after `named` is empty, or `as` is missing or
   * last. A missing `as` is the syntax error; the others read past the end
   * of the tokens or of the name, which is an index error, and they are
   * found before a missing `as` is.
   */
  lemma GetOrCreateCalendarFailures(contents: Tokens)
    requires |contents| > 2
    ensures
      var byLast := "by" in contents && IndexOf(contents, "by") == |contents| - 1;
      var namedLast := "named" in contents && IndexOf(contents, "named") == |contents| - 1;
      var emptyName := "named" in contents && IndexOf(contents, "named") + 1 < |contents| &&
                       contents[IndexOf(contents, "named") + 1] == "";
      var asLast := "as" in contents && IndexOf(contents, "as") == |contents| - 1;
      && (ParseGetOrCreateCalendar(contents).Err? <==>
            byLast || namedLast || emptyName || "as" !in contents || asLast)
      && (ParseGetOrCreateCalendar(contents) == Err(SyntaxError) <==>
            !byLast && !namedLast && !emptyName && "as" !in contents)
      && (ParseGetOrCreateCalendar(contents) == Err(IndexError) <==>
            byLast || namedLast || emptyName || asLast)
  {
  }
}
