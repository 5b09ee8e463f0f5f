/**
 * A stored waste report as finalversion.py and version.py write it, the
 * popup text both scripts build for a report marker, and the file name of a
 * report image.
 */
module Reports {
  import opened Wrappers
  import opened PyText
  import opened Dates

  /**
   * One row of the report file. `date` is the text `str(row['date'])`
   * gives (a `YYYYMMDD` number); `image` is `None` when the column is
   * missing or the cell is NaN (pandas reads an empty cell as NaN).
   */
  datatype Report = Report(lat: real, lon: real, date: string, description: string, image: Option<string>)

  /** Python's `str()` of a float, as the f-strings print it. */
  type NumberText = real -> string

  /** `({lat}, {lon})` */
  function CoordinateText(lat: string, lon: string): string
  {
    "(" + lat + ", " + lon + ")"
  }

  /** The three text lines of a popup: date, description and the stored coordinates. */
  function PopupText(r: Report, fmt: NumberText): (t: string)
    ensures DateLine(r) <= t
  {
    DateLine(r) + "<strong>Description:</strong> " + r.description + "<br>"
    + "<strong>Coordinates:</strong> " + CoordinateText(fmt(r.lat), fmt(r.lon)) + "<br>"
  }

  function DateLine(r: Report): string
  {
    "<strong>Date:</strong> " + DateText(r.date) + "<br>"
  }

  /** `"image" in row and pd.notna(row["image"]) and row["image"] != "" and os.path.exists(row["image"])` */
  predicate ShowsImage(r: Report, fileExists: string -> bool)
  {
    r.image.Some? && r.image.value != "" && fileExists(r.image.value)
  }

  /** The inline image appended to a popup, given the base64 text of the file. */
  function ImageTag(base64: string): string
  {
    "<img src=\"data:image/jpeg;base64," + base64 + "\" width=\"200\"><br>"
  }

  /**
   * `generate_popup(row)`. Reading the file and base64-encoding it are I/O:
   * `fileExists` answers `os.path.exists` and `encode` gives the encoded
   * contents of a path.
   */
  function Popup(r: Report, fmt: NumberText, fileExists: string -> bool, encode: string -> string): (p: string)
    ensures PopupText(r, fmt) <= p
    ensures ShowsImage(r, fileExists) <==> |PopupText(r, fmt)| < |p|
    ensures !ShowsImage(r, fileExists) ==> p == PopupText(r, fmt)
    ensures ShowsImage(r, fileExists) ==> p[|PopupText(r, fmt)|..] == ImageTag(encode(r.image.value))
  {
    var text := PopupText(r, fmt);
    if ShowsImage(r, fileExists) then text + ImageTag(encode(r.image.value)) else text
  }

  /** The popup's coordinate line is the stored latitude and longitude, printed unmodified. */
  lemma PopupShowsStoredCoordinates(r: Report, fmt: NumberText, fileExists: string -> bool, encode: string -> string)
    ensures Contains(Popup(r, fmt, fileExists, encode), CoordinateText(fmt(r.lat), fmt(r.lon)))
  {
    var coords := CoordinateText(fmt(r.lat), fmt(r.lon));
    var before := DateLine(r) + "<strong>Description:</strong> " + r.description + "<br>"
      + "<strong>Coordinates:</strong> ";
    var text := PopupText(r, fmt);
    assert text == before + coords + "<br>";
    ContainsItself(coords);
    ContainsInRight(before, coords, coords);
    ContainsInLeft(before + coords, "<br>", coords);
    var p := Popup(r, fmt, fileExists, encode);
    assert p == text + p[|text|..];
    ContainsInLeft(text, p[|text|..], coords);
  }

  /** `f"{date}_{lat}_{lon}"`: the three fields of an image file name joined by underscores. */
  function Underscored(a: string, b: string, c: string): string
  {
    a + "_" + b + "_" + c
  }

  /** Fields that contain no underscore are recovered from their underscore-joined form. */
  lemma UnderscoredInjective(a: string, b: string, c: string, a': string, b': string, c': string)
    requires '_' !in a && '_' !in b && '_' !in a' && '_' !in b'
    requires Underscored(a, b, c) == Underscored(a', b', c')
    ensures a == a' && b == b' && c == c'
  {
    assert a + ['_'] + (b + "_" + c) == Underscored(a, b, c);
    assert a' + ['_'] + (b' + "_" + c') == Underscored(a', b', c');
    SplitAtFirst(a, b + "_" + c, a', b' + "_" + c', '_');
    assert b + ['_'] + c == b + "_" + c;
    assert b' + ['_'] + c' == b' + "_" + c';
    SplitAtFirst(b, c, b', c', '_');
  }

  /** Two texts with a common prefix and suffix agree in what lies between. */
  lemma StripAffixes(pre: string, x: string, y: string, suf: string)
    requires pre + x + suf == pre + y + suf
    ensures x == y
  {
    var w := pre + x + suf;
    assert x == w[|pre|..|w| - |suf|];
    assert y == (pre + y + suf)[|pre|..|w| - |suf|];
  }
}
