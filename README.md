# Show queue of StreamSort++

StreamSort++ (`main.cpp`) is a console manager for a queue of TV shows. The
program keeps one ordered, mutable `vector<Show>`; a show has a title, a
genre, an `int` episode count and a `double` rating. The menu operations
change that vector in place:

- add a show after range checks;
- remove the first show with a given title;
- search for the first show with a given title;
- list the queue recursively with 1-based positions;
- sort it by title or by rating;
- save it to a pipe-delimited text file and load it back, skipping lines
  that do not parse.

This project models that queue in Dafny and proves what each operation does.
It has three modules:

- `Shows` (`show.dfy`) holds the record and the read-only operations:
  - `FindFirst`, the `find_if` that remove and search share;
  - `Search`;
  - `Erase`, the model of `vector::erase`;
  - `Listing`, the recursive display as a list of (position, show) pairs;
  - the two comparators given to `std::sort`, and what "sorted" means for
    them.
- `TextFormat` (`textformat.dfy`) holds the file format:
  - `getline` on a delimiter (`GetLine`), used for newlines and for `|`;
  - `stoi` (`ParseInt`), and `<<` on an int (`IntToString`);
  - the saved line (`FormatLine`) and the saved file (`Encode`);
  - the lines read back (`Lines`), the four fields of a line (`Fields`) and
    the per-line parse (`ParseLine`);
  - the tolerant loading filter (`Keep`/`Decode`), and the save/load round
    trip.
- `Queue` (`queue.dfy`) holds:
  - the errors the operations throw;
  - an insertion sort that stands in for `std::sort`;
  - the class `ShowQueue`. Its field `shows` is the vector. `Add`, `Remove`,
    `Sort` and `Load` change it. `Search` and `Save` only read it.

The rating's text conversions are not modelled as decimal arithmetic.
`operator<<` on a `double` and `stod` are two functions packed in a
`RatingCodec`, and every property about ratings holds for any such pair.

Two behaviours of the code are easy to miss:

- Search returns the FIRST show with a title. So add-then-search finds the
  added show only when no earlier show has that title
  (`Shows.SearchAfterAppend` states both cases).
- Save-then-load does not give back the rating itself. It gives back the
  rating `stod` reads from what `<<` printed
  (`TextFormat.LoadSaveRoundTrip`). The identical queue comes back only
  when those conversions round-trip (`TextFormat.ExactRoundTrip`).

In the program, no title or genre can hold a newline, because each is read
with `getline` on a newline (main.cpp:75-77, 171). The model accepts any
string as a title or genre. So the save/load lemmas require the absence of
newlines explicitly, but the program always meets that requirement.

## Model

| member | source | states |
|---|---|---|
| Shows.Show | main.cpp:10-15 | one queue entry: title, genre, an episode count in the 32-bit `int` range, and a rating |
| TextFormat.RatingCodec | main.cpp:161 | the rating's text conversions: `format` stands for `<<` on a `double` (main.cpp:161) and `parse` for `stod` (main.cpp:181), None where `stod` throws |
| TextFormat.Kept | main.cpp:179-185 | what one line adds: its show when the parse succeeds (the `push_back` in the `try`), nothing when it fails (the `catch` that continues) |
| Shows.FindFirst | main.cpp:97-99 | the position `find_if` stops at is the first show whose title equals the target; None only when no title equals it |
| Shows.Search | main.cpp:144-153 | a show is found exactly when some title equals the target, and the one found is the first such show |
| Shows.SearchAfterAppend | main.cpp:144-153 | after appending a show, searching its title finds that show, unless an earlier show already has that title, which is then found instead |
| Shows.Erase | main.cpp:102 | erasing position i removes exactly that element: length drops by one, the elements before i stay put, those after move down one, and the multiset loses just that show |
| Shows.Listing | main.cpp:110-115 | the display from `index` lists every remaining show exactly once, in queue order, each with its 1-based position |
| Shows.TitleLessIrreflexive | main.cpp:124-126 | no title sorts before itself |
| Shows.TitleLessTransitive | main.cpp:124-126 | the lexicographic title order is transitive |
| Shows.TitleLessTotal | main.cpp:124-126 | of two distinct titles, one sorts before the other |
| Shows.BeforeIrreflexive | main.cpp:123-133 | both sort comparators are irreflexive |
| Shows.BeforeTransitive | main.cpp:123-133 | both sort comparators are transitive |
| Shows.SortedByTitleAscending | main.cpp:123-126 | in a queue sorted by title, each title equals or sorts before every later title |
| Shows.SortTwoTitles | main.cpp:123-126 | sorting shows titled "Zeta" and "Alpha" by title has the single outcome Alpha, Zeta |
| Shows.SortTwoRatings | main.cpp:128-130 | sorting ratings 3.0 and 4.5 by rating has the single outcome 4.5, 3.0 |
| Shows.FindFirstAppend | main.cpp:97-99 | appending a show does not move an earlier first match; without one, the appended show is the first match exactly when its title equals the target |
| Shows.TitleLess | main.cpp:125 | the `std::string` `<` on titles: character by character, and a proper prefix comes first |
| Shows.Before | main.cpp:124-130 | the comparator of option 1 is title `<`; that of option 2 is rating `>` |
| Shows.Sorted | main.cpp:123-133 | what `std::sort` leaves: no show stands after one it must precede under the comparator |
| Queue.ConfirmIntInput | main.cpp:196-198 | the episode check: the value is at least the minimum, bound included |
| Queue.ConfirmDoubleInput | main.cpp:192-194 | the rating check: the value lies between the bounds, both included |
| Queue.QueueError | main.cpp:81 | the four exceptions the operations throw: bad episodes (main.cpp:81), bad rating (main.cpp:85), show not found (main.cpp:105), bad sort option (main.cpp:132) |
| TextFormat.GetLine | main.cpp:175-178 | one `getline` on a delimiter: the text up to the delimiter, and the rest after it; consumes at least one character when input is left |
| TextFormat.Lines | main.cpp:171 | the lines `while (getline(in, line))` reads: one per newline-ended segment, plus a final unterminated one; none for the empty text |
| TextFormat.Fields | main.cpp:175-178 | exactly n fields, read by successive `getline` calls on the pipe; fields past the end of the line are empty |
| TextFormat.ParseInt | main.cpp:180 | `stoi`: leading white space, an optional sign, the longest digit run; None with no digits or outside the `int` range |
| TextFormat.IsSpace | main.cpp:180 | the white space `stoi` skips: blank, tab, newline, vertical tab, form feed, carriage return |
| TextFormat.SkipSpaces | main.cpp:180 | the text after the leading white space `stoi` skips; never longer than the input |
| TextFormat.DigitPrefix | main.cpp:180 | the digit run `stoi` reads; never longer than the input |
| TextFormat.NatToDigits | main.cpp:161 | the decimal digits `<<` prints for a non-negative int: non-empty, digits only |
| TextFormat.LineParser | main.cpp:179-182 | the per-line parse the load loop applies |
| TextFormat.FormatLine | main.cpp:160-161 | the saved line: title, genre, printed episode count and printed rating, joined by pipes |
| TextFormat.Encode | main.cpp:159-162 | the saved file: each show's line followed by a newline, in queue order |
| TextFormat.ParseLine | main.cpp:172-182 | a line's four fields become a show when the episode field parses with `stoi` and the rating field with `stod`; None otherwise |
| TextFormat.Decode | main.cpp:171-186 | the loaded queue: the shows of the lines `ParseLine` accepts, in file order |
| Queue.SortShows | main.cpp:123-133 | the result is sorted under the chosen comparator and is a permutation of the input |
| Queue.InsertionPoint | main.cpp:123-133 | finds the first position whose element the new show must precede; it precedes none of the elements before that position |
| Queue.InsertKeepsSorted | main.cpp:123-133 | inserting a show at that position keeps the sequence sorted and adds exactly that show |
| Queue.ShowQueue.constructor | main.cpp:17 | the queue starts empty |
| Queue.ShowQueue.Add | main.cpp:72-89 | a missing episode count or one below 1 (the inclusive check of `confirmIntInput`) fails with InvalidEpisodes; otherwise a missing rating or one outside the inclusive range 1.0 to 5.0 (`confirmDoubleInput`) fails with InvalidRating; in both cases the queue is unchanged; it succeeds exactly when both are in range, and then appends exactly the given show at the end |
| Queue.ShowQueue.Remove | main.cpp:92-107 | succeeds exactly when some title equals the target, and then erases the first such show; otherwise fails with ShowNotFound and leaves the queue unchanged |
| Queue.ShowQueue.Search | main.cpp:139-154 | reports the first show with the target title, or none, and changes nothing |
| Queue.ShowQueue.Sort | main.cpp:118-136 | option 1 leaves a permutation sorted ascending by title; option 2 leaves a permutation sorted by rating, highest first; any other option fails with InvalidSortOption and leaves the queue unchanged |
| Queue.ShowQueue.Save | main.cpp:157-164 | the text written is each show's line followed by a newline, in queue order |
| Queue.ShowQueue.ReadLines | main.cpp:171-186 | the getline loop clears the queue, then appends, in file order, the show of every line the parser accepts and skips the others |
| Queue.ShowQueue.Load | main.cpp:167-189 | the queue becomes the shows of the lines that parse, in file order (the empty text gives the empty queue); the count reported is the new queue length |
| TextFormat.GetLineSplits | main.cpp:175-178 | the field `getline` reads holds no delimiter; it is followed by the delimiter and the unread text, or it is the whole rest of the input |
| TextFormat.GetLineJoin | main.cpp:175-178 | a delimiter-free field followed by the delimiter is read back whole, and reading continues right after it |
| TextFormat.FieldsJoin | main.cpp:175-178 | a field followed by the pipe delimiter becomes the next of the fields read, and the fields after it are read from the rest |
| TextFormat.FieldsHaveNoDelimiter | main.cpp:175-178 | none of the fields read holds the pipe delimiter |
| TextFormat.ParsedFieldsHaveNoDelimiter | main.cpp:175-176 | a loaded show's title and genre never hold the pipe delimiter |
| TextFormat.IntToString | main.cpp:161 | an int is printed as decimal digits, preceded by a minus sign exactly when it is negative |
| TextFormat.DigitsValueOfNat | main.cpp:161 | the printed digits of a number denote that number |
| TextFormat.SkipSpacesSplits | main.cpp:180 | `stoi` skips exactly the leading white space |
| TextFormat.DigitPrefixSplits | main.cpp:180 | `stoi` reads the longest run of digits after the sign |
| TextFormat.ParseIntNeedsDigit | main.cpp:180 | `stoi` fails on text holding no digit |
| TextFormat.ParseIntOfIntToString | main.cpp:180 | `stoi` reads back every int `<<` printed |
| TextFormat.EncodeAppend | main.cpp:159-162 | saving one more show appends its line and a newline to the file |
| TextFormat.FormatLineOneLine | main.cpp:160-161 | a saved line holds no newline when its title, genre and rating text hold none |
| TextFormat.LinesCons | main.cpp:171 | the getline loop reads a newline-free line whole, then continues after its newline |
| TextFormat.LinesOfEncode | main.cpp:159-162 | for every queue whose titles, genres and rating texts hold no newline (pipes allowed), saving emits exactly one line per show, in queue order, each the title, genre, episode count and rating text joined by pipes |
| TextFormat.FieldsOfFormatLine | main.cpp:175-178 | when the title, genre and rating text hold no pipe, a saved line splits back into exactly the four fields it was written from |
| TextFormat.ParseFormatLine | main.cpp:175-182 | for a storable show (no pipe or newline in its title, genre or rating text, and a rating text the rating parser accepts), its saved line parses back to its title, genre and episode count, whatever the count (no range check), with the rating as the parser reads it from the printed rating |
| TextFormat.Keep | main.cpp:171-186 | loading never yields more shows than there are lines |
| TextFormat.KeptFromSomeLine | main.cpp:179-182 | every loaded show is exactly what the parser made of some line of the file |
| TextFormat.KeepLinesStep | main.cpp:171-186 | one turn of the getline loop: the first line's show, if any, comes before the shows of the rest of the file |
| TextFormat.LoadStep | main.cpp:171-186 | the loop's invariant is kept when a line is consumed and its show, if any, appended |
| TextFormat.KeepAppend | main.cpp:171-186 | loading the lines of two parts gives the shows of the first part, then those of the second |
| TextFormat.KeepLine | main.cpp:179-185 | each line contributes its show if it parses and nothing otherwise, wherever it stands in the file |
| TextFormat.KeepTwoLines | main.cpp:171-186 | a file of two lines yields what each line yields, in order |
| TextFormat.LoadSaveRoundTrip | main.cpp:157-189 | when no title or genre holds a pipe or a newline and the rating text parses back, loading the saved file keeps the queue's length and order and every show's title, genre and episode count, and reads each rating from its printed text |
| TextFormat.ExactRoundTrip | main.cpp:157-189 | if the rating conversions round-trip as well, loading the saved file gives back the identical queue |
| TextFormat.PipeInTitleBreaksLine | main.cpp:160-180 | since the pipe is not escaped, the saved line of a show whose title is a, pipe, b with genre "g" has "g" as its third (episode) field, and the line is rejected |
| TextFormat.PipeInTitleLosesShow | main.cpp:157-189 | saving and loading a queue holding only that show gives the empty queue |
| TextFormat.NonNumericEpisodesRejected | main.cpp:179-184 | the line `x` pipe `y` pipe `abc` pipe `4.0` is rejected, since `stoi` fails on `abc` |
| TextFormat.EpisodesWithoutDigitRejected | main.cpp:179-184 | every line whose third (episode) field holds no digit is rejected, whatever its other fields hold |
| TextFormat.LoadSkipsMalformedLine | main.cpp:171-186 | for a storable show, loading its saved line followed by the line `x` pipe `y` pipe `abc` pipe `4.0` yields one show: the saved show's title, genre and episode count, with the rating read from its printed text; the bad line is skipped silently |

## Left out

- The menu loop, the prompts and every `cout` message (main.cpp:31-69 and
  the print statements) are console I/O. The messages survive only as
  comments on `QueueError`.
- `cin` extraction and its error recovery are not modelled. A failed
  `cin >> episodes` or `cin >> rating` is the value None passed to `Add`,
  and it takes the same error path as an out-of-range value. The titles read
  with `getline(cin, …)` are plain parameters.
- Opening, writing and closing files (`ofstream`/`ifstream`) are not
  modelled. A file is its whole text as one string, and a missing file is
  the empty text.
- `operator<<` on a `double` and `stod` are abstract (`RatingCodec`), since
  they are floating-point text conversions. Ratings are unbounded `real`
  values, so there is no NaN or infinity, and no case where `std::sort`
  receives a comparator that is not a strict weak order. The program can
  reach that case: `stod("nan")` succeeds and load applies no range check
  (main.cpp:181-182), so a line such as `t|g|3|nan` loads a show with a NaN
  rating. Sort option 2 then hands `std::sort` a comparator that is not a
  strict weak order (main.cpp:128-130), which is undefined behaviour.
- Queue.SortShows: does not model `std::sort`'s algorithm or its order among
  equal keys, because the program promises neither. It states only "sorted
  and a permutation".
- Shows.Listing: does not model the recursion depth of the display or its
  output text.
- Shows.TitleLess: compares characters by code point. `std::string`
  compares bytes as `unsigned char`, which gives the same order for UTF-8
  titles.
- Queue.ShowQueue.Load: returns the loaded count instead of printing it.
- Shows.Show: the episode count is restricted to the 32-bit `int` range, and
  `stoi` results outside it are rejected, as `out_of_range` is. Nothing in
  the core does arithmetic on the count, so wrap-around cannot arise.
- `ParseInt` models `stoi` in base 10 with ASCII white space. Locale-
  dependent white space is not modelled.
