/**
 * `_sanitize_holiday_name`: a holiday's name becomes the suffix of a column
 * name. The name keeps only its letters, digits and spaces, is lower-cased,
 * and every space becomes an underscore.
 */
module HolidayNames {

  import opened Ascii

  /** The characters the list comprehension keeps. */
  predicate IsNameChar(c: char) {
    IsLetter(c) || IsDigit(c) || c == ' '
  }

  /** The characters a sanitised name is made of. */
  predicate IsSanitizedChar(c: char) {
    'a' <= c <= 'z' || IsDigit(c) || c == '_'
  }

  /** `[c for c in name if c.isalpha() or c.isdigit() or c == ' ']`, joined. */
  function KeepNameChars(name: string): (kept: string)
    ensures |kept| <= |name|
    ensures forall j :: 0 <= j < |kept| ==> IsNameChar(kept[j])
  {
    if name == [] then []
    else
      var n := |name| - 1;
      KeepNameChars(name[..n]) + (if IsNameChar(name[n]) then [name[n]] else [])
  }

  /** `str.lower()`. */
  function Lower(s: string): (r: string)
    ensures |r| == |s|
    ensures forall j :: 0 <= j < |r| ==> !IsUpper(r[j])
  {
    seq(|s|, j requires 0 <= j < |s| => ToLower(s[j]))
  }

  /** `str.replace(" ", "_")`. */
  function ReplaceSpaces(s: string): (r: string)
    ensures |r| == |s|
    ensures ' ' !in r
  {
    seq(|s|, j requires 0 <= j < |s| => if s[j] == ' ' then '_' else s[j])
  }

  /** `_sanitize_holiday_name(name)`. */
  function SanitizeHolidayName(name: string): (r: string)
    ensures |r| <= |name|
    ensures forall j :: 0 <= j < |r| ==> IsSanitizedChar(r[j])
  {
    ReplaceSpaces(Lower(KeepNameChars(name)))
  }

  /** What sanitising makes of one kept character. */
  function CharImage(c: char): char {
    if c == ' ' then '_' else ToLower(c)
  }

  /** The positions of `name` that the comprehension keeps. */
  function KeptPositions(name: string): (ps: seq<nat>)
    ensures forall j :: 0 <= j < |ps| ==> ps[j] < |name| && IsNameChar(name[ps[j]])
    ensures forall j, k :: 0 <= j < k < |ps| ==> ps[j] < ps[k]
    ensures forall i :: 0 <= i < |name| && IsNameChar(name[i]) ==> i in ps
  {
    if name == [] then []
    else
      var n := |name| - 1;
      KeptPositions(name[..n]) + (if IsNameChar(name[n]) then [n] else [])
  }

  /** The set of positions holding a letter, a digit or a space. */
  function NameCharPositions(name: string): set<nat> {
    set i: nat | i < |name| && IsNameChar(name[i])
  }

  lemma {:induction false} KeepNameCharsAtPositions(name: string)
    ensures |KeepNameChars(name)| == |KeptPositions(name)|
    ensures forall j :: 0 <= j < |KeptPositions(name)| ==>
              KeepNameChars(name)[j] == name[KeptPositions(name)[j]]
  {
    if name != [] {
      var n := |name| - 1;
      var front := name[..n];
      KeepNameCharsAtPositions(front);
      var ps, kept := KeptPositions(front), KeepNameChars(front);
      forall j | 0 <= j < |ps|
        ensures kept[j] == name[ps[j]]
      {
        assert front[ps[j]] == name[ps[j]];
      }
    }
  }

  /**
   * Sanitising keeps the order of the kept characters: output position j is
   * the image of the j-th letter, digit or space of the input.
   */
  lemma SanitizePreservesOrder(name: string)
    ensures |SanitizeHolidayName(name)| == |KeptPositions(name)|
    ensures forall j :: 0 <= j < |KeptPositions(name)| ==>
              SanitizeHolidayName(name)[j] == CharImage(name[KeptPositions(name)[j]])
  {
    KeepNameCharsAtPositions(name);
  }

  /** The sanitised name is as long as the input has letters, digits and spaces. */
  lemma {:induction false} SanitizedLength(name: string)
    ensures |SanitizeHolidayName(name)| == |NameCharPositions(name)|
  {
    if name != [] {
      var n := |name| - 1;
      SanitizedLength(name[..n]);
      var before := NameCharPositions(name[..n]);
      assert n !in before;
      if IsNameChar(name[n]) {
        assert NameCharPositions(name) == before + {n};
      } else {
        assert NameCharPositions(name) == before;
      }
    }
  }

  /**
   * Every underscore of the sanitised name comes from a space of the input,
   * and every space of the input gives one: existing underscores and
   * punctuation are dropped.
   */
  lemma UnderscoresComeFromSpaces(name: string)
    ensures |SanitizeHolidayName(name)| == |KeptPositions(name)|
    ensures forall j :: 0 <= j < |KeptPositions(name)| ==>
              (SanitizeHolidayName(name)[j] == '_' <==> name[KeptPositions(name)[j]] == ' ')
    ensures '_' in SanitizeHolidayName(name) <==> ' ' in name
  {
    SanitizePreservesOrder(name);
    var r, ps := SanitizeHolidayName(name), KeptPositions(name);
    if ' ' in name {
      var i :| 0 <= i < |name| && name[i] == ' ';
      var j :| 0 <= j < |ps| && ps[j] == i;
      assert r[j] == '_';
    }
  }

  lemma {:induction false} KeepAllNameChars(s: string)
    requires forall j :: 0 <= j < |s| ==> IsNameChar(s[j])
    ensures KeepNameChars(s) == s
  {
    if s != [] {
      var n := |s| - 1;
      KeepAllNameChars(s[..n]);
      assert s[..n] + [s[n]] == s;
    }
  }

  lemma {:induction false} KeepDropsOther(s: string, i: nat)
    requires i < |s| && !IsNameChar(s[i])
    ensures |KeepNameChars(s)| < |s|
  {
    var n := |s| - 1;
    if i < n {
      KeepDropsOther(s[..n], i);
    }
  }

  /** A name of lower-case letters and digits only is its own sanitised form. */
  lemma SanitizeKeepsPlainName(s: string)
    requires forall j :: 0 <= j < |s| ==> IsSanitizedChar(s[j]) && s[j] != '_'
    ensures SanitizeHolidayName(s) == s
  {
    KeepAllNameChars(s);
    assert Lower(s) == s;
    assert ReplaceSpaces(s) == s;
  }

  /**
   * Sanitising an already sanitised name gives it back exactly when the
   * original name had no space: the underscores that spaces became are
   * dropped the second time.
   */
  lemma SanitizeTwice(name: string)
    ensures SanitizeHolidayName(SanitizeHolidayName(name)) == SanitizeHolidayName(name)
            <==> ' ' !in name
  {
    var s := SanitizeHolidayName(name);
    UnderscoresComeFromSpaces(name);
    if ' ' in name {
      var i :| 0 <= i < |s| && s[i] == '_';
      KeepDropsOther(s, i);
      assert |SanitizeHolidayName(s)| < |s|;
    } else {
      SanitizeKeepsPlainName(s);
    }
  }

  lemma {:induction false} KeepNameCharsAppend(a: string, b: string)
    ensures KeepNameChars(a + b) == KeepNameChars(a) + KeepNameChars(b)
  {
    if b != [] {
      var n := |b| - 1;
      KeepNameCharsAppend(a, b[..n]);
      assert (a + b)[..|a| + n] == a + b[..n];
    } else {
      assert a + b == a;
    }
  }

  lemma KeepNameCharsNewYearsDay()
    ensures KeepNameChars("New Year's Day") == "New Years Day"
  {
    var a, b, c := "New Year", "'", "s Day";
    assert KeepNameChars(b + c) == c by {
      KeepNameCharsAppend(b, c);
      assert KeepNameChars(b) == [];
      KeepAllNameChars(c);
    }
    assert KeepNameChars(a) == a by {
      KeepAllNameChars(a);
    }
    KeepNameCharsAppend(a, b + c);
    assert "New Year's Day" == a + (b + c);
    assert "New Years Day" == a + c;
  }

  /** The example of the calendar's first holiday: the apostrophe is dropped. */
  lemma NewYearsDay()
    ensures SanitizeHolidayName("New Year's Day") == "new_years_day"
  {
    KeepNameCharsNewYearsDay();
    assert Lower("New Years Day") == "new years day";
    assert ReplaceSpaces("new years day") == "new_years_day";
  }
}
