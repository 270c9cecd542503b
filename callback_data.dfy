/**
 * The language buttons' callback data `"lang_xx"`: the handler is only
 * dispatched for data starting with `lang_`, and takes the language code as
 * Python's `data.split("_")[1]`.
 */
module CallbackData {
  import opened Wrappers

  const Separator: char := '_'
  const LangPrefix: string := "lang_"

  /** Python's `s.split(sep)` with a one-character separator: empty fields are kept. */
  function Split(s: string, sep: char): (parts: seq<string>)
    ensures |parts| >= 1
    ensures forall i :: 0 <= i < |parts| ==> sep !in parts[i]
    ensures sep in s <==> |parts| >= 2
    decreases |s|
  {
    if s == [] then [[]]
    else
      var rest := Split(s[1..], sep);
      assert s == [s[0]] + s[1..];
      if s[0] == sep then [[]] + rest
      else [[s[0]] + rest[0]] + rest[1..]
  }

  /** Python's `sep.join(parts)`. */
  function Join(parts: seq<string>, sep: char): (s: string)
    requires |parts| >= 1
    decreases |parts|
  {
    if |parts| == 1 then parts[0] else parts[0] + [sep] + Join(parts[1..], sep)
  }

  /** Joining the fields of a split gives back the original string. */
  lemma {:induction false} JoinSplit(s: string, sep: char)
    ensures Join(Split(s, sep), sep) == s
    decreases |s|
  {
    if s != [] {
      var rest := Split(s[1..], sep);
      JoinSplit(s[1..], sep);
      assert s == [s[0]] + s[1..];
      if s[0] == sep {
        assert ([[]] + rest)[1..] == rest;
      } else if |rest| > 1 {
        var parts := [[s[0]] + rest[0]] + rest[1..];
        assert parts[1..] == rest[1..];
      }
    }
  }

  /** A field free of the separator, followed by the separator, splits off as one field. */
  lemma {:induction false} SplitAfter(a: string, sep: char, b: string)
    requires sep !in a
    ensures Split(a + [sep] + b, sep) == [a] + Split(b, sep)
    decreases |a|
  {
    var s := a + [sep] + b;
    if a == [] {
      assert s[1..] == b;
    } else {
      assert s[1..] == a[1..] + [sep] + b;
      SplitAfter(a[1..], sep, b);
      assert [a[0]] + a[1..] == a;
    }
  }

  /** Splitting a join of separator-free fields gives back the fields. */
  lemma {:induction false} SplitJoin(parts: seq<string>, sep: char)
    requires |parts| >= 1
    requires forall i :: 0 <= i < |parts| ==> sep !in parts[i]
    ensures Split(Join(parts, sep), sep) == parts
    decreases |parts|
  {
    if |parts| == 1 {
      SplitNoSeparator(parts[0], sep);
    } else {
      SplitJoin(parts[1..], sep);
      SplitAfter(parts[0], sep, Join(parts[1..], sep));
      assert [parts[0]] + parts[1..] == parts;
    }
  }

  /** A string without the separator is a single field. */
  lemma {:induction false} SplitNoSeparator(s: string, sep: char)
    requires sep !in s
    ensures Split(s, sep) == [s]
    decreases |s|
  {
    if s != [] {
      SplitNoSeparator(s[1..], sep);
      assert [s[0]] + s[1..] == s;
    }
  }

  /** The first field of a split is the longest separator-free prefix. */
  lemma {:induction false} SplitFirst(s: string, sep: char)
    ensures |Split(s, sep)[0]| <= |s|
    ensures Split(s, sep)[0] == s[..|Split(s, sep)[0]|]
    ensures |Split(s, sep)[0]| == |s| || s[|Split(s, sep)[0]|] == sep
    decreases |s|
  {
    if s != [] && s[0] != sep {
      SplitFirst(s[1..], sep);
    }
  }

  /**
   * The language selected by a button press, or None when the data does not
   * match the handler's `^lang_` pattern (the handler is then not invoked).
   */
  function LangFromCallback(data: string): (r: Option<string>)
    ensures r.Some? <==> |data| >= |LangPrefix| && data[..|LangPrefix|] == LangPrefix
    ensures r.Some? ==> Separator !in r.value
    ensures r.Some? ==> |LangPrefix| + |r.value| <= |data|
    ensures r.Some? ==> data[|LangPrefix|..|LangPrefix| + |r.value|] == r.value
    ensures r.Some? ==> |LangPrefix| + |r.value| == |data| || data[|LangPrefix| + |r.value|] == Separator
  {
    if |data| >= |LangPrefix| && data[..|LangPrefix|] == LangPrefix then
      var tail := data[|LangPrefix|..];
      assert data == "lang" + [Separator] + tail;
      SplitAfter("lang", Separator, tail);
      SplitFirst(tail, Separator);
      Some(Split(data, Separator)[1])
    else
      None
  }

  /** The data `"lang_" + code` of a button for a code without `_` yields that code. */
  lemma CallbackRoundTrip(code: string)
    requires Separator !in code
    ensures LangFromCallback(LangPrefix + code) == Some(code)
  {
    var data := LangPrefix + code;
    assert data == "lang" + [Separator] + code;
    SplitAfter("lang", Separator, code);
    SplitNoSeparator(code, Separator);
  }

  /** The two buttons the bot offers select English and Arabic. */
  lemma ButtonsSelectTheirLanguage()
    ensures LangFromCallback("lang_en") == Some("en")
    ensures LangFromCallback("lang_ar") == Some("ar")
  {
    assert LangPrefix + "en" == "lang_en" && Separator !in "en";
    CallbackRoundTrip("en");
    assert LangPrefix + "ar" == "lang_ar" && Separator !in "ar";
    CallbackRoundTrip("ar");
  }
}
