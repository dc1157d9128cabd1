/**
  The queue file: one show per line, `title|genre|episodes|rating`.
  Reading follows the stream functions the program uses: `getline` to cut the
  text into lines and each line into fields at `|`, `stoi` for the episode
  count. How a rating is printed and parsed back is a parameter.
 */
module TextFormat {
  import opened Shows

  /** How a rating is written as text and read back from text. Kept
      abstract: any pair of conversions may be supplied. */
  datatype RatingCodec = RatingCodec(format: real -> string, parse: string -> Option<real>)

  // ---------------------------------------------------------------------------
  // getline
  // ---------------------------------------------------------------------------

  /** One `getline(stream, field, delim)` on the unread text `s`: the field
      read and the text still unread. At the end of the input the field is
      empty, and so is every field read after it. */
  function GetLine(s: string, delim: char): (r: (string, string))
    ensures |s| > 0 ==> |r.1| < |s|
  {
    if |s| == 0 then ([], [])
    else if s[0] == delim then ([], s[1..])
    else
      var (field, rest) := GetLine(s[1..], delim);
      ([s[0]] + field, rest)
  }

  /** The field read holds no delimiter; it is followed by the delimiter
      and the unread text, or it is all that was left. */
  lemma {:induction false} GetLineSplits(s: string, delim: char)
    ensures delim !in GetLine(s, delim).0
    ensures if delim in s then s == GetLine(s, delim).0 + [delim] + GetLine(s, delim).1
            else GetLine(s, delim) == (s, [])
  {
    if |s| > 0 && s[0] != delim {
      GetLineSplits(s[1..], delim);
      assert s == [s[0]] + s[1..];
    }
  }

  /** A field followed by the delimiter is read back whole. */
  lemma {:induction false} GetLineJoin(a: string, delim: char, b: string)
    requires delim !in a
    ensures GetLine(a + [delim] + b, delim) == (a, b)
  {
    if |a| > 0 {
      assert a[0] in a && a == [a[0]] + a[1..];
      assert delim !in a[1..];
      assert (a + [delim] + b)[0] == a[0];
      assert (a + [delim] + b)[1..] == a[1..] + [delim] + b;
      GetLineJoin(a[1..], delim, b);
    } else {
      assert a + [delim] + b == [delim] + b;
    }
  }

  /** A field followed by `|` is read whole, and reading goes on after it. */
  lemma FieldsJoin(a: string, b: string, n: nat)
    requires '|' !in a
    ensures Fields(a + ['|'] + b, n + 1) == [a] + Fields(b, n)
  {
    GetLineJoin(a, '|', b);
  }

  // ---------------------------------------------------------------------------
  // Decimal integers: `<<` on an int and `stoi`
  // ---------------------------------------------------------------------------

  predicate IsDigit(c: char) { '0' <= c <= '9' }

  /** The characters `isspace` accepts: blank, tab, newline, vertical tab,
      form feed and carriage return. */
  predicate IsSpace(c: char) { c == ' ' || '\t' <= c <= '\r' }

  function DigitChar(d: nat): (c: char)
    requires d < 10
    ensures IsDigit(c)
  {
    ('0' as int + d) as char
  }

  /** The decimal digits of `n`, most significant first. */
  function NatToDigits(n: nat): (r: string)
    ensures |r| > 0 && forall i :: 0 <= i < |r| ==> IsDigit(r[i])
  {
    if n < 10 then [DigitChar(n)] else NatToDigits(n / 10) + [DigitChar(n % 10)]
  }

  /** An int as `<<` writes it: a minus sign for negatives, then the digits. */
  function IntToString(n: int): (r: string)
    ensures |r| > 0 && (r[0] == '-' <==> n < 0)
    ensures forall i :: 0 <= i < |r| ==> IsDigit(r[i]) || (i == 0 && n < 0)
  {
    if n < 0 then "-" + NatToDigits(-n) else NatToDigits(n)
  }

  /** The number a string of digits denotes. */
  function DigitsValue(ds: string): int {
    if |ds| == 0 then 0
    else DigitsValue(ds[..|ds| - 1]) * 10 + (ds[|ds| - 1] as int - '0' as int)
  }

  lemma {:induction false} DigitsValueOfNat(n: nat)
    ensures DigitsValue(NatToDigits(n)) == n
  {
    if n >= 10 {
      var ds := NatToDigits(n);
      assert ds[..|ds| - 1] == NatToDigits(n / 10);
      DigitsValueOfNat(n / 10);
    }
  }

  /** `s` without its leading white space. */
  function SkipSpaces(s: string): (r: string)
    ensures |r| <= |s|
  {
    if |s| > 0 && IsSpace(s[0]) then SkipSpaces(s[1..]) else s
  }

  /** Only white space is skipped, and all of it: what is left is a suffix
      of `s` that does not start with white space. */
  lemma {:induction false} SkipSpacesSplits(s: string)
    ensures SkipSpaces(s) == s[|s| - |SkipSpaces(s)|..]
    ensures |SkipSpaces(s)| > 0 ==> !IsSpace(SkipSpaces(s)[0])
    ensures forall i :: 0 <= i < |s| - |SkipSpaces(s)| ==> IsSpace(s[i])
  {
    if |s| > 0 && IsSpace(s[0]) {
      SkipSpacesSplits(s[1..]);
    }
  }

  /** The longest run of digits that `s` starts with. */
  function DigitPrefix(s: string): (r: string)
    ensures |r| <= |s|
  {
    if |s| > 0 && IsDigit(s[0]) then [s[0]] + DigitPrefix(s[1..]) else []
  }

  /** The digit prefix is a prefix of `s`, all digits, and as long as
      possible. */
  lemma {:induction false} DigitPrefixSplits(s: string)
    ensures DigitPrefix(s) == s[..|DigitPrefix(s)|]
    ensures forall i :: 0 <= i < |DigitPrefix(s)| ==> IsDigit(s[i])
    ensures |DigitPrefix(s)| < |s| ==> !IsDigit(s[|DigitPrefix(s)|])
  {
    if |s| > 0 && IsDigit(s[0]) {
      DigitPrefixSplits(s[1..]);
    }
  }

  /** `stoi`: leading white space, an optional sign and at least one digit;
      whatever follows the digits is ignored. No digits (invalid_argument) or
      a value outside `int` (out_of_range) gives None. */
  function ParseInt(s: string): (r: Option<Int32>) {
    var t := SkipSpaces(s);
    var negative := |t| > 0 && t[0] == '-';
    var u := if |t| > 0 && (t[0] == '-' || t[0] == '+') then t[1..] else t;
    var ds := DigitPrefix(u);
    var v := if negative then -DigitsValue(ds) else DigitsValue(ds);
    if |ds| == 0 || !(-0x8000_0000 <= v < 0x8000_0000) then None else Some(v)
  }

  /** `stoi` fails on text that holds no digit at all. */
  lemma ParseIntNeedsDigit(s: string)
    requires forall i :: 0 <= i < |s| ==> !IsDigit(s[i])
    ensures ParseInt(s) == None
  {
    var t := SkipSpaces(s);
    SkipSpacesSplits(s);
    var u := if |t| > 0 && (t[0] == '-' || t[0] == '+') then t[1..] else t;
    DigitPrefixSplits(u);
  }

  /** `stoi` reads back every int that `<<` wrote. */
  lemma ParseIntOfIntToString(n: Int32)
    ensures ParseInt(IntToString(n)) == Some(n)
  {
    var s := IntToString(n);
    assert SkipSpaces(s) == s;
    var m: nat := if n < 0 then -(n as int) else n as int;
    var u := NatToDigits(m);
    assert u == if n < 0 then s[1..] else s;
    DigitPrefixSplits(u);
    assert DigitPrefix(u) == u;
    DigitsValueOfNat(m);
  }

  // ---------------------------------------------------------------------------
  // Saving
  // ---------------------------------------------------------------------------

  /** The line saved for one show. */
  function FormatLine(codec: RatingCodec, s: Show): string {
    s.title + "|" + s.genre + "|" + IntToString(s.episodes) + "|" + codec.format(s.rating)
  }

  /** The file written for a queue: each show's line and a newline. */
  function Encode(codec: RatingCodec, q: seq<Show>): string {
    if |q| == 0 then "" else FormatLine(codec, q[0]) + "\n" + Encode(codec, q[1..])
  }

  /** Saving one more show appends its line to the file. */
  lemma {:induction false} EncodeAppend(codec: RatingCodec, q: seq<Show>, x: Show)
    ensures Encode(codec, q + [x]) == Encode(codec, q) + FormatLine(codec, x) + "\n"
  {
    if |q| > 0 {
      assert (q + [x])[0] == q[0];
      assert (q + [x])[1..] == q[1..] + [x];
      EncodeAppend(codec, q[1..], x);
    } else {
      assert q + [x] == [x];
    }
  }

  // ---------------------------------------------------------------------------
  // Loading
  // ---------------------------------------------------------------------------

  /** The lines the `while (getline(in, line))` loop reads from `text`. */
  function Lines(text: string): (r: seq<string>)
    decreases |text|
    ensures |r| <= |text|
  {
    if |text| == 0 then []
    else
      var (line, rest) := GetLine(text, '\n');
      [line] + Lines(rest)
  }

  /** The first `n` fields that successive `getline(ss, field, '|')` calls
      read from `s`; once the text runs out every further field is empty. */
  function Fields(s: string, n: nat): (r: seq<string>)
    decreases n
    ensures |r| == n
  {
    if n == 0 then []
    else
      var (field, rest) := GetLine(s, '|');
      [field] + Fields(rest, n - 1)
  }

  /** No field read holds the delimiter. */
  lemma {:induction false} FieldsHaveNoDelimiter(s: string, n: nat, i: nat)
    requires i < n
    decreases n
    ensures '|' !in Fields(s, n)[i]
  {
    GetLineSplits(s, '|');
    if i > 0 {
      FieldsHaveNoDelimiter(GetLine(s, '|').1, n - 1, i - 1);
    }
  }

  /** One line split at `|` into title, genre, episodes and rating, the two
      numbers parsed; None when either fails to parse. Fields beyond the
      fourth are ignored, missing fields are empty. */
  function ParseLine(codec: RatingCodec, line: string): (r: Option<Show>)
  {
    var fields := Fields(line, 4);
    match ParseInt(fields[2])
    case None => None
    case Some(episodes) =>
      match codec.parse(fields[3])
      case None => None
      case Some(rating) => Some(Show(fields[0], fields[1], episodes, rating))
  }

  /** What one line adds to the queue under the line parser `parse`: its
      show if the line is accepted, else nothing. */
  function Kept(parse: string -> Option<Show>, line: string): seq<Show> {
    match parse(line)
    case Some(s) => [s]
    case None => []
  }

  /** The shows `parse` yields from `lines`: one per accepted line, in
      order; rejected lines are skipped. */
  function Keep(parse: string -> Option<Show>, lines: seq<string>): (r: seq<Show>)
    ensures |r| <= |lines|
  {
    if |lines| == 0 then [] else Kept(parse, lines[0]) + Keep(parse, lines[1..])
  }

  /** The parser the load loop applies to each line. */
  function LineParser(codec: RatingCodec): string -> Option<Show> {
    line => ParseLine(codec, line)
  }

  /** The shows loaded from `lines`. */
  function Decode(codec: RatingCodec, lines: seq<string>): seq<Show> {
    Keep(LineParser(codec), lines)
  }

  /** Every kept show is what `parse` makes of some line. */
  lemma {:induction false} KeptFromSomeLine(parse: string -> Option<Show>, lines: seq<string>, k: nat)
    requires k < |Keep(parse, lines)|
    ensures exists i :: 0 <= i < |lines| && parse(lines[i]) == Some(Keep(parse, lines)[k])
  {
    var first := Kept(parse, lines[0]);
    if k < |first| {
      assert parse(lines[0]) == Some(Keep(parse, lines)[k]);
    } else {
      KeptFromSomeLine(parse, lines[1..], k - |first|);
      var i :| 0 <= i < |lines[1..]| && parse(lines[1..][i]) == Some(Keep(parse, lines[1..])[k - |first|]);
      assert parse(lines[i + 1]) == Some(Keep(parse, lines)[k]);
    }
  }

  /** One turn of the getline loop: the first line's show, if it parses,
      comes before the shows of the remaining text. */
  lemma KeepLinesStep(parse: string -> Option<Show>, text: string)
    requires |text| > 0
    ensures Keep(parse, Lines(text)) ==
      Kept(parse, GetLine(text, '\n').0) + Keep(parse, Lines(GetLine(text, '\n').1))
  {
  }

  /** One turn of the getline loop as the loop performs it: the shows
      gathered so far, followed by what the remaining text yields, are the
      same after the first line is consumed and its show, if any, appended. */
  lemma LoadStep(parse: string -> Option<Show>, rest: string, shows: seq<Show>)
    requires |rest| > 0
    ensures shows + Keep(parse, Lines(rest)) ==
      (shows + Kept(parse, GetLine(rest, '\n').0)) + Keep(parse, Lines(GetLine(rest, '\n').1))
  {
    KeepLinesStep(parse, rest);
  }

  lemma {:induction false} KeepAppend(parse: string -> Option<Show>, a: seq<string>, b: seq<string>)
    ensures Keep(parse, a + b) == Keep(parse, a) + Keep(parse, b)
  {
    if |a| == 0 {
      assert a + b == b;
    } else {
      assert (a + b)[0] == a[0];
      assert (a + b)[1..] == a[1..] + b;
      KeepAppend(parse, a[1..], b);
    }
  }

  /** Each line contributes its show if it is accepted and nothing
      otherwise, wherever it stands in the file. */
  lemma KeepLine(parse: string -> Option<Show>, before: seq<string>, line: string, after: seq<string>)
    ensures Keep(parse, before + [line] + after) ==
      Keep(parse, before) + Kept(parse, line) + Keep(parse, after)
  {
    KeepAppend(parse, before + [line], after);
    KeepAppend(parse, before, [line]);
    assert [line][1..] == [];
    assert Keep(parse, [line]) == Kept(parse, line) + Keep(parse, []);
  }

  /** A loaded show's title and genre never hold the delimiter. */
  lemma ParsedFieldsHaveNoDelimiter(codec: RatingCodec, line: string)
    requires ParseLine(codec, line).Some?
    ensures '|' !in ParseLine(codec, line).value.title
    ensures '|' !in ParseLine(codec, line).value.genre
  {
    FieldsHaveNoDelimiter(line, 4, 0);
    FieldsHaveNoDelimiter(line, 4, 1);
  }

  // ---------------------------------------------------------------------------
  // Saving then loading
  // ---------------------------------------------------------------------------

  /** A show whose title and genre hold no `|` or newline and whose rating
      text holds neither and parses back. */
  predicate Storable(codec: RatingCodec, s: Show) {
    '|' !in s.title && '\n' !in s.title &&
    '|' !in s.genre && '\n' !in s.genre &&
    '|' !in codec.format(s.rating) && '\n' !in codec.format(s.rating) &&
    codec.parse(codec.format(s.rating)).Some?
  }

  lemma FormatLineOneLine(codec: RatingCodec, s: Show)
    requires '\n' !in s.title && '\n' !in s.genre && '\n' !in codec.format(s.rating)
    ensures '\n' !in FormatLine(codec, s)
  {
  }

  /** The getline loop reads a newline-free line and then goes on after it. */
  lemma LinesCons(line: string, rest: string)
    requires '\n' !in line
    ensures Lines(line + "\n" + rest) == [line] + Lines(rest)
  {
    GetLineJoin(line, '\n', rest);
  }

  /** Loading reads back one file line per saved show, in queue order. */
  lemma {:induction false} LinesOfEncode(codec: RatingCodec, q: seq<Show>)
    requires forall i :: 0 <= i < |q| ==>
      '\n' !in q[i].title && '\n' !in q[i].genre && '\n' !in codec.format(q[i].rating)
    ensures |Lines(Encode(codec, q))| == |q|
    ensures forall i :: 0 <= i < |q| ==> Lines(Encode(codec, q))[i] == FormatLine(codec, q[i])
  {
    if |q| > 0 {
      FormatLineOneLine(codec, q[0]);
      LinesCons(FormatLine(codec, q[0]), Encode(codec, q[1..]));
      LinesOfEncode(codec, q[1..]);
    }
  }

  /** A saved line splits back into the four fields it was written from. */
  lemma FieldsOfFormatLine(codec: RatingCodec, s: Show)
    requires '|' !in s.title && '|' !in s.genre && '|' !in codec.format(s.rating)
    ensures Fields(FormatLine(codec, s), 4) ==
      [s.title, s.genre, IntToString(s.episodes), codec.format(s.rating)]
  {
    var episodesText := IntToString(s.episodes);
    var ratingText := codec.format(s.rating);
    assert '|' !in episodesText;
    assert FormatLine(codec, s) ==
      s.title + ['|'] + (s.genre + ['|'] + (episodesText + ['|'] + ratingText));
    FieldsJoin(s.title, s.genre + ['|'] + (episodesText + ['|'] + ratingText), 3);
    FieldsJoin(s.genre, episodesText + ['|'] + ratingText, 2);
    FieldsJoin(episodesText, ratingText, 1);
    GetLineSplits(ratingText, '|');
    assert Fields(ratingText, 1) == [ratingText];
  }

  /** A saved line parses back to its show's title, genre and episode count,
      whatever the count: no range check is applied, so 0 and negative
      counts are read back as well. The rating comes back as whatever the
      rating parser makes of the printed rating. */
  lemma ParseFormatLine(codec: RatingCodec, s: Show)
    requires Storable(codec, s)
    ensures ParseLine(codec, FormatLine(codec, s)) ==
      Some(Show(s.title, s.genre, s.episodes, codec.parse(codec.format(s.rating)).value))
  {
    FieldsOfFormatLine(codec, s);
    ParseIntOfIntToString(s.episodes);
  }

  /** `loaded` is what becomes of `saved` after a save and a load: the same
      title, genre and episode count, and the rating the parser reads from
      the printed rating. */
  predicate Reloaded(codec: RatingCodec, saved: Show, loaded: Show) {
    loaded.title == saved.title && loaded.genre == saved.genre &&
    loaded.episodes == saved.episodes &&
    codec.parse(codec.format(saved.rating)) == Some(loaded.rating)
  }

  /** Saving and then loading keeps the queue's length and order and every
      show's title, genre and episode count. */
  lemma {:induction false} LoadSaveRoundTrip(codec: RatingCodec, q: seq<Show>)
    requires forall i :: 0 <= i < |q| ==> Storable(codec, q[i])
    ensures |Decode(codec, Lines(Encode(codec, q)))| == |q|
    ensures forall i :: 0 <= i < |q| ==>
      Reloaded(codec, q[i], Decode(codec, Lines(Encode(codec, q)))[i])
  {
    if |q| > 0 {
      var line := FormatLine(codec, q[0]);
      FormatLineOneLine(codec, q[0]);
      LinesCons(line, Encode(codec, q[1..]));
      var tail := Lines(Encode(codec, q[1..]));
      assert ([line] + tail)[1..] == tail;
      ParseFormatLine(codec, q[0]);
      LoadSaveRoundTrip(codec, q[1..]);
    }
  }

  /** When the rating conversions also round-trip, loading what was saved
      gives back the queue itself. */
  lemma ExactRoundTrip(codec: RatingCodec, q: seq<Show>)
    requires forall i :: 0 <= i < |q| ==> Storable(codec, q[i])
    requires forall i :: 0 <= i < |q| ==> codec.parse(codec.format(q[i].rating)) == Some(q[i].rating)
    ensures Decode(codec, Lines(Encode(codec, q))) == q
  {
    LoadSaveRoundTrip(codec, q);
  }

  /** The delimiter is not escaped: a show whose title holds `|` is saved as
      a line whose third field is the genre, which does not parse as a
      number, so loading rejects the line. */
  lemma PipeInTitleBreaksLine(codec: RatingCodec, s: Show)
    requires s.title == "a|b" && s.genre == "g"
    ensures Fields(FormatLine(codec, s), 4)[2] == "g"
    ensures ParseLine(codec, FormatLine(codec, s)) == None
  {
    var line := FormatLine(codec, s);
    var rest := IntToString(s.episodes) + "|" + codec.format(s.rating);
    assert line == "a" + ['|'] + ("b" + ['|'] + ("g" + ['|'] + rest));
    FieldsJoin("a", "b" + ['|'] + ("g" + ['|'] + rest), 3);
    FieldsJoin("b", "g" + ['|'] + rest, 2);
    FieldsJoin("g", rest, 1);
    assert Fields(line, 4)[2] == "g";
    ParseIntNeedsDigit("g");
  }

  /** So saving and loading a queue that holds only such a show loses it. */
  lemma PipeInTitleLosesShow(codec: RatingCodec, s: Show)
    requires s.title == "a|b" && s.genre == "g"
    requires '\n' !in codec.format(s.rating)
    ensures Decode(codec, Lines(Encode(codec, [s]))) == []
  {
    var line := FormatLine(codec, s);
    PipeInTitleBreaksLine(codec, s);
    assert Kept(LineParser(codec), line) == [];
    FormatLineOneLine(codec, s);
    LinesCons(line, "");
    assert Lines("") == [];
  }

  /** Any line whose third field holds no digit is rejected, whatever its
      other fields hold. */
  lemma EpisodesWithoutDigitRejected(codec: RatingCodec, line: string)
    requires forall i :: 0 <= i < |Fields(line, 4)[2]| ==> !IsDigit(Fields(line, 4)[2][i])
    ensures ParseLine(codec, line) == None
  {
    ParseIntNeedsDigit(Fields(line, 4)[2]);
  }

  /** Such as the line `x|y|abc|4.0`. */
  lemma NonNumericEpisodesRejected(codec: RatingCodec)
    ensures ParseLine(codec, "x|y|abc|4.0") == None
  {
    assert "x|y|abc|4.0" == "x" + ['|'] + ("y" + ['|'] + ("abc" + ['|'] + "4.0"));
    FieldsJoin("x", "y" + ['|'] + ("abc" + ['|'] + "4.0"), 3);
    FieldsJoin("y", "abc" + ['|'] + "4.0", 2);
    FieldsJoin("abc", "4.0", 1);
    ParseIntNeedsDigit("abc");
  }

  /** A file of two lines yields what each of them yields, in order. */
  lemma KeepTwoLines(parse: string -> Option<Show>, first: string, second: string)
    requires '\n' !in first && '\n' !in second
    ensures Keep(parse, Lines(first + "\n" + (second + "\n"))) ==
      Kept(parse, first) + Kept(parse, second)
  {
    LinesCons(first, second + "\n");
    LinesCons(second, "");
    assert second + "\n" == second + "\n" + "";
    assert Lines("") == [];
    KeepLine(parse, [first], second, []);
    assert [first] + [second] + [] == [first, second];
    assert Keep(parse, [first]) == Kept(parse, first) + Keep(parse, []);
  }

  /** Loading a file of one saved line and one line with a non-numeric
      episode field yields just the saved show: the bad line is skipped. */
  lemma LoadSkipsMalformedLine(codec: RatingCodec, s: Show)
    requires Storable(codec, s)
    ensures Decode(codec, Lines(FormatLine(codec, s) + "\n" + ("x|y|abc|4.0" + "\n"))) ==
      [Show(s.title, s.genre, s.episodes, codec.parse(codec.format(s.rating)).value)]
  {
    var good := FormatLine(codec, s);
    FormatLineOneLine(codec, s);
    KeepTwoLines(LineParser(codec), good, "x|y|abc|4.0");
    ParseFormatLine(codec, s);
    NonNumericEpisodesRejected(codec);
  }
}
