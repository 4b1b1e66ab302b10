/** The paginated listing of `manageSearches` and the main loop of main.go
    that leads to it. The active searches are a sequence in listing order;
    a page is the slice the `LIMIT 10 OFFSET offset` query returns. */
module Browse {
  import opened Results
  import opened Text
  import opened Searches

  /** Searches shown per page. */
  const Limit: nat := 10

  /** The page at `offset`: up to ten consecutive searches starting there,
      and none once the offset is past the end. */
  function Page(db: seq<Search>, offset: nat): (r: seq<Search>)
    ensures |r| <= Limit
    ensures offset >= |db| ==> r == []
    ensures offset < |db| ==> |r| == if |db| - offset < Limit then |db| - offset else Limit
    ensures forall i :: 0 <= i < |r| ==> r[i] == db[offset + i]
  {
    if offset >= |db| then []
    else if |db| - offset < Limit then db[offset..]
    else db[offset..offset + Limit]
  }

  /** What the listing does with the trimmed choice. */
  datatype Navigation =
    | Back
    | NextPage
    | PreviousPage
    | View(index: nat)
    | NeedsSelection  // a details-view letter typed at the listing
    | Invalid

  /** The listing's choice handling: "b" leaves, "n" turns the page only when
      the page is full, "p" only when there is a previous page, and a number
      from 1 to the page's length selects that search. */
  function Navigate(offset: nat, pageLen: nat, line: string): (r: Navigation)
    ensures r == Back <==> TrimSpace(line) == "b"
    ensures r == NextPage <==> TrimSpace(line) == "n" && pageLen == Limit
    ensures r == PreviousPage <==> TrimSpace(line) == "p" && offset > 0
    ensures r.View? <==> ScanInt(TrimSpace(line)).Some? && 1 <= ScanInt(TrimSpace(line)).value <= pageLen
    ensures r.View? ==> r.index + 1 == ScanInt(TrimSpace(line)).value && r.index < pageLen
  {
    var choice := TrimSpace(line);
    NavigationWordsDiffer();
    if choice == "b" then Back
    else if choice == "n" && pageLen == Limit then NextPage
    else if choice == "p" && offset > 0 then PreviousPage
    else
      var n := ScanInt(choice);
      if n.Some? && 1 <= n.value <= pageLen then View(n.value - 1)
      else if choice == "d" || choice == "e" || choice == "f" then NeedsSelection
      else Invalid
  }

  /** The navigation letters are distinct and none of them scans as a number. */
  lemma NavigationWordsDiffer()
    ensures "b" != "n" && "b" != "p" && "n" != "p"
    ensures ScanInt("b").None? && ScanInt("n").None? && ScanInt("p").None?
  {
    assert "b"[0] != "n"[0] && "b"[0] != "p"[0] && "n"[0] != "p"[0];
    NoDigitNoNumber("b");
    NoDigitNoNumber("n");
    NoDigitNoNumber("p");
  }

  lemma NoDigitNoNumber(w: string)
    requires w == "b" || w == "n" || w == "p"
    ensures ScanInt(w).None?
  {
    assert |w| == 1 && !IsDigit(w[0]);
  }

  /** Typing a row's number selects that row. */
  lemma NumberSelectsRow(offset: nat, pageLen: nat, line: string)
    requires 0 < |line| && forall k :: 0 <= k < |line| ==> IsDigit(line[k])
    requires 1 <= DecimalValue(line) <= pageLen <= Limit
    ensures Navigate(offset, pageLen, line) == View(DecimalValue(line) - 1)
  {
    DigitsAreTrimmed(line);
    ScanDecimal(line);
    SelectsParsedRow(offset, pageLen, line);
  }

  lemma DigitsAreTrimmed(line: string)
    requires 0 < |line| && forall k :: 0 <= k < |line| ==> IsDigit(line[k])
    ensures TrimSpace(line) == line
  {
    assert !IsSpace(line[0]) && !IsSpace(line[|line| - 1]);
    TrimSpaceOfTrimmed(line);
  }

  lemma SelectsParsedRow(offset: nat, pageLen: nat, line: string)
    requires TrimSpace(line) == line
    requires ScanInt(line).Some? && 1 <= ScanInt(line).value <= pageLen
    ensures Navigate(offset, pageLen, line) == View(ScanInt(line).value - 1)
  {
  }

  /** The offset one page back, never below the first page. The empty-page
      branch clamps like this; the "p" branch subtracts ten without the
      clamp, which agrees here because it is taken only at a positive offset
      and the offset stays a multiple of ten (`ListStepKeepsGrid`). */
  function PageBack(offset: nat): nat {
    if offset < Limit then 0 else offset - Limit
  }

  /** One pass of the listing loop: either it goes round again at some
      offset, or it returns to the main menu. */
  datatype Step =
    | Again(db: seq<Search>, offset: nat, rest: seq<string>)
    | Leave(db: seq<Search>, rest: seq<string>)

  /** One pass of `manageSearches`' loop at `offset`. An empty first page
      leaves; an empty later page goes back one page without reading input;
      otherwise one choice is read and acted on. */
  function ListStep(db: seq<Search>, offset: nat, lines: seq<string>): (r: Step)
    ensures |Page(db, offset)| == 0 && offset == 0 ==> r == Leave(db, lines)
    ensures |Page(db, offset)| == 0 && offset > 0 ==>
              r == Again(db, PageBack(offset), lines)
    ensures forall x :: x in r.db ==> x in db
    ensures r.Again? && r.offset > offset ==> r.offset == offset + Limit && offset + Limit <= |db|
    ensures r.Again? ==> r.offset == offset || r.offset == offset + Limit || r.offset == PageBack(offset)
  {
    var page := Page(db, offset);
    if |page| == 0 then
      if offset == 0 then Leave(db, lines)
      else Again(db, PageBack(offset), lines)
    else
      var (line, rest) := ReadLine(lines);
      match Navigate(offset, |page|, line)
      case Back => Leave(db, rest)
      case NextPage => Again(db, offset + Limit, rest)
      case PreviousPage => Again(db, PageBack(offset), rest)
      case View(i) =>
        var (db', rest') := ViewSearchDetails(db, page[i].id, rest);
        Again(db', offset, rest')
      case _ => Again(db, offset, rest)
  }

  // On a non-empty page the navigation read from the typed line decides
  // the step, and `Navigate` ties each navigation to the typed choice.

  /** "b" returns to the menu. */
  lemma ListStepBack(db: seq<Search>, offset: nat, lines: seq<string>)
    requires |Page(db, offset)| > 0
    requires Navigate(offset, |Page(db, offset)|, ReadLine(lines).0).Back?
    ensures ListStep(db, offset, lines) == Leave(db, ReadLine(lines).1)
  {
  }

  /** "n" on a full page lists the next page. */
  lemma ListStepNextPage(db: seq<Search>, offset: nat, lines: seq<string>)
    requires |Page(db, offset)| > 0
    requires Navigate(offset, |Page(db, offset)|, ReadLine(lines).0).NextPage?
    ensures ListStep(db, offset, lines) == Again(db, offset + Limit, ReadLine(lines).1)
  {
  }

  /** "p" past the first page lists the page before. */
  lemma ListStepPreviousPage(db: seq<Search>, offset: nat, lines: seq<string>)
    requires |Page(db, offset)| > 0
    requires Navigate(offset, |Page(db, offset)|, ReadLine(lines).0).PreviousPage?
    ensures ListStep(db, offset, lines) == Again(db, PageBack(offset), ReadLine(lines).1)
  {
  }

  /** Input that selects nothing lists the same page again, unchanged. */
  lemma ListStepStays(db: seq<Search>, offset: nat, lines: seq<string>)
    requires |Page(db, offset)| > 0
    requires var nav := Navigate(offset, |Page(db, offset)|, ReadLine(lines).0);
             !nav.Back? && !nav.NextPage? && !nav.PreviousPage? && !nav.View?
    ensures ListStep(db, offset, lines) == Again(db, offset, ReadLine(lines).1)
  {
  }

  /** A shown row's number opens the details of that row's search and
      then lists again at the same offset. */
  lemma ListStepOpensSelected(db: seq<Search>, offset: nat, lines: seq<string>)
    requires |Page(db, offset)| > 0
    ensures var nav := Navigate(offset, |Page(db, offset)|, ReadLine(lines).0);
            nav.View? ==>
              var view := ViewSearchDetails(db, Page(db, offset)[nav.index].id, ReadLine(lines).1);
              ListStep(db, offset, lines) == Again(view.0, offset, view.1)
  {
  }

  /** The listing never leaves the page grid: starting on a multiple of ten,
      every later offset is one too. */
  lemma ListStepKeepsGrid(db: seq<Search>, offset: nat, lines: seq<string>)
    requires offset % Limit == 0
    ensures ListStep(db, offset, lines).Again? ==> ListStep(db, offset, lines).offset % Limit == 0
  {
    PageMovesOnGrid(offset);
    StepOffsetOnGrid(offset, ListStep(db, offset, lines));
  }

  lemma StepOffsetOnGrid(offset: nat, r: Step)
    requires offset % Limit == 0
    requires r.Again? ==> r.offset == offset || r.offset == offset + Limit || r.offset == PageBack(offset)
    ensures r.Again? ==> r.offset % Limit == 0
  {
    PageMovesOnGrid(offset);
  }

  lemma PageMovesOnGrid(offset: nat)
    requires offset % Limit == 0
    ensures PageBack(offset) % Limit == 0 && (offset + Limit) % Limit == 0
  {
  }

  /** The only way the listing changes the database is by deleting the
      search on the current page whose row number was typed. */
  lemma {:induction false} ListStepDeletesOnlyShown(db: seq<Search>, offset: nat, lines: seq<string>)
    ensures var r := ListStep(db, offset, lines);
            var page := Page(db, offset);
            var nav := Navigate(offset, |page|, ReadLine(lines).0);
            r.db != db ==>
              && |page| > 0
              && nav.View?
              && forall x :: x in r.db <==> x in db && x.id != page[nav.index].id
  {
    var r := ListStep(db, offset, lines);
    var page := Page(db, offset);
    if |page| > 0 {
      var (line, rest) := ReadLine(lines);
      var nav := Navigate(offset, |page|, line);
      if nav.View? {
        var i := nav.index;
        var view := ViewSearchDetails(db, page[i].id, rest);
        assert r.db == view.0;
        if view.0 != db {
          assert forall x :: x in r.db <==> x in db && x.id != page[i].id;
        }
      } else {
        assert r.db == db;
      }
    } else {
      assert r.db == db;
    }
  }

  /** `manageSearches`: the listing loop from the first page, run for at
      most `fuel` passes. */
  function ManageSearches(db: seq<Search>, lines: seq<string>, fuel: nat): (r: (seq<Search>, seq<string>))
    ensures forall x :: x in r.0 ==> x in db
  {
    Listing(db, 0, lines, fuel)
  }

  function Listing(db: seq<Search>, offset: nat, lines: seq<string>, fuel: nat): (r: (seq<Search>, seq<string>))
    ensures forall x :: x in r.0 ==> x in db
    decreases fuel
  {
    if fuel == 0 then (db, lines)
    else
      match ListStep(db, offset, lines)
      case Leave(db', rest) => (db', rest)
      case Again(db', offset', rest) => Listing(db', offset', rest, fuel - 1)
  }

  /** With ten searches, "n" turns to an empty page, which steps straight
      back to the first page. */
  lemma FullLastPageStepsBack(db: seq<Search>, lines: seq<string>)
    requires |db| == Limit && |lines| > 0 && lines[0] == "n"
    ensures ListStep(db, 0, lines) == Again(db, Limit, lines[1..])
    ensures ListStep(db, Limit, lines[1..]) == Again(db, 0, lines[1..])
  {
    var w := lines[0];
    TrimSpaceOfTrimmed(w);
    assert TrimSpace(w) == "n";
    assert |Page(db, 0)| == Limit;
    assert ReadLine(lines) == (w, lines[1..]);
    assert Navigate(0, Limit, w) == NextPage;
    assert Page(db, Limit) == [];
  }

  // ---------------------------------------------------------------------
  // The main loop

  /** The state of the program between two main-menu prompts. */
  datatype App = App(db: seq<Search>, lines: seq<string>, running: bool)

  /** One pass of the main loop: read a choice and act on it. Creating a
      search appends the new record (given its id and creation time);
      every branch but quitting ends by waiting for Enter. */
  function MainStep(db: seq<Search>, lines: seq<string>, id: string, now: int, fuel: nat): (r: App)
    ensures !r.running <==> MenuChoice(ReadLine(lines).0) == Quit
    ensures MenuChoice(ReadLine(lines).0) == CreateSearch ==>
              var c := CreateNewSearch(ReadLine(lines).1, id, now);
              r.db == db + (if c.record.Some? then [c.record.value] else [])
  {
    var line := ReadLine(lines).0;
    var rest := ReadLine(lines).1;
    match MenuChoice(line)
    case CreateSearch =>
      var c := CreateNewSearch(rest, id, now);
      App(if c.record.Some? then db + [c.record.value] else db, PressEnter(c.rest), true)
    case ManageSearches =>
      var managed := ManageSearches(db, rest, fuel);
      App(managed.0, PressEnter(managed.1), true)
    case Quit => App(db, rest, false)
    case _ => App(db, PressEnter(rest), true)
  }

  /** Every choice but creating adds no search; the placeholder entries and
      anything unrecognised only wait for Enter. */
  lemma MainStepOthers(db: seq<Search>, lines: seq<string>, id: string, now: int, fuel: nat)
    ensures var choice := MenuChoice(ReadLine(lines).0);
      var r := MainStep(db, lines, id, now, fuel);
      && (choice != CreateSearch ==> forall x :: x in r.db ==> x in db)
      && (choice == NotYetAvailable || choice == InvalidOption ==>
            r == App(db, PressEnter(ReadLine(lines).1), true))
  {
    var (line, rest) := ReadLine(lines);
    if MenuChoice(line).ManageSearches? {
      var (db', rest') := ManageSearches(db, rest, fuel);
      assert MainStep(db, lines, id, now, fuel) == App(db', PressEnter(rest'), true);
    }
  }

  /** At the end of input every read yields an empty line, which is not a
      menu choice: the main loop goes round forever without quitting. */
  lemma EndOfInputNeverQuits(db: seq<Search>, id: string, now: int, fuel: nat)
    ensures MainStep(db, [], id, now, fuel) == App(db, [], true)
  {
    ExhaustedStep(db, [], id, now, fuel);
  }

  lemma ExhaustedStep(db: seq<Search>, lines: seq<string>, id: string, now: int, fuel: nat)
    requires lines == []
    ensures MainStep(db, lines, id, now, fuel) == App(db, [], true)
  {
    var (line, rest) := ReadLine(lines);
    assert line == [] && rest == [];
    TrimSpaceOfTrimmed(line);
    assert MenuChoice(line) == InvalidOption;
    assert PressEnter(rest) == [];
  }
}
