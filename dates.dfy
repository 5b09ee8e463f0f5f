/**
 * Display forms of a report date. Reports carry the date as the text of a
 * `YYYYMMDD` number; the scripts insert dashes by slicing that text.
 */
module Dates {
  import opened PyText

  /** `f"{s[:4]}-{s[4:6]}-{s[6:]}"`: the form used in popups and in the pin list. */
  function DateText(s: string): (r: string)
    ensures |r| == |s| + 2
    ensures r[..|Slice(s, 0, 4)|] == Slice(s, 0, 4) && r[|Slice(s, 0, 4)|] == '-'
  {
    Slice(s, 0, 4) + "-" + Slice(s, 4, 6) + "-" + From(s, 6)
  }

  /** `f"{s[:4]}-{s[4:6]}-{s[6:8]}"`: the form used in the exported PDF table. */
  function PdfDateText(s: string): (r: string)
    ensures |r| == (if |s| < 8 then |s| else 8) + 2
  {
    Slice(s, 0, 4) + "-" + Slice(s, 4, 6) + "-" + Slice(s, 6, 8)
  }

  /** The text with every dash removed. */
  function DeleteDashes(s: string): (r: string)
  {
    if s == [] then [] else (if s[0] == '-' then [] else [s[0]]) + DeleteDashes(s[1..])
  }

  lemma {:induction false} DeleteDashesConcat(a: string, b: string)
    ensures DeleteDashes(a + b) == DeleteDashes(a) + DeleteDashes(b)
  {
    if a == [] {
      assert a + b == b;
    } else {
      assert (a + b)[1..] == a[1..] + b;
      DeleteDashesConcat(a[1..], b);
    }
  }

  lemma DeleteDashAround(x: string, y: string)
    ensures DeleteDashes(x + "-" + y) == DeleteDashes(x) + DeleteDashes(y)
  {
    DeleteDashesConcat(x + "-", y);
    DeleteDashesConcat(x, "-");
  }

  lemma {:induction false} DeleteDashesNoDash(s: string)
    requires '-' !in s
    ensures DeleteDashes(s) == s
  {
    if s != [] {
      DeleteDashesNoDash(s[1..]);
      assert s == [s[0]] + s[1..];
    }
  }

  /** The three slices cover the text exactly, whatever its length. */
  lemma SlicesCover(s: string)
    ensures Slice(s, 0, 4) + Slice(s, 4, 6) + From(s, 6) == s
  {
    if |s| <= 4 {
      assert Slice(s, 0, 4) == s;
    } else if |s| <= 6 {
      assert s == s[..4] + s[4..];
    } else {
      assert s == s[..4] + s[4..6] + s[6..];
    }
  }

  /**
   * Deleting the dashes of the display form gives back the stored text, for
   * every dash-free text (every `YYYYMMDD` text in particular), of any length.
   */
  lemma DateTextRoundTrip(s: string)
    requires '-' !in s
    ensures DeleteDashes(DateText(s)) == s
  {
    var a, b, c := Slice(s, 0, 4), Slice(s, 4, 6), From(s, 6);
    calc {
      DeleteDashes(DateText(s));
      DeleteDashes((a + "-" + b) + "-" + c);
      { DeleteDashAround(a + "-" + b, c); }
      DeleteDashes(a + "-" + b) + DeleteDashes(c);
      { DeleteDashAround(a, b); }
      DeleteDashes(a) + DeleteDashes(b) + DeleteDashes(c);
      { DeleteDashesConcat(a, b); DeleteDashesConcat(a + b, c); }
      DeleteDashes(a + b + c);
      { SlicesCover(s); }
      DeleteDashes(s);
      { DeleteDashesNoDash(s); }
      s;
    }
  }

  /** For an eight-character text the dashes sit at positions 4 and 7, between the year, month and day. */
  lemma DateTextOfEightCharacters(s: string)
    requires |s| == 8
    ensures var r := DateText(s);
      && |r| == 10 && r[4] == '-' && r[7] == '-'
      && r[..4] == s[..4] && r[5..7] == s[4..6] && r[8..] == s[6..]
  {
  }

  /** The PDF form is the display form of the first eight characters: anything past index 8 is dropped. */
  lemma PdfDateTextTruncates(s: string)
    ensures PdfDateText(s) == DateText(Slice(s, 0, 8))
    ensures |s| <= 8 ==> PdfDateText(s) == DateText(s)
  {
    var t := Slice(s, 0, 8);
    if |s| <= 8 {
      assert t == s;
    } else {
      assert Slice(t, 0, 4) == Slice(s, 0, 4);
      assert Slice(t, 4, 6) == Slice(s, 4, 6);
      assert From(t, 6) == Slice(s, 6, 8);
    }
  }
}
