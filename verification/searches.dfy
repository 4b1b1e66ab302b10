/** The search-record screens of main.go: the main menu, the listing's
    cell formatting, the details view, creation and deletion. The database
    is the sequence of active search records in listing order. */
module Searches {
  import opened Results
  import opened Text

  /** `sql.NullInt64`. */
  datatype NullInt64 = NullInt64(int64: int, valid: bool)

  /** `sql.NullTime`, with the time as an abstract instant. */
  datatype NullTime = NullTime(time: int, valid: bool)

  /** A search record together with the counts the queries join in. */
  datatype Search = Search(
    id: string,
    createdAt: int,
    updatedAt: int,
    description: string,
    arxivUrl: string,
    resultsPerFetch: NullInt64,
    lastFetchDate: NullTime,
    articleCount: nat,
    candidateCount: nat)

  /** Reads the next line of input; an exhausted scanner yields "". */
  function ReadLine(lines: seq<string>): (r: (string, seq<string>))
    ensures |lines| > 0 ==> r == (lines[0], lines[1..])
    ensures |lines| == 0 ==> r == ("", [])
  {
    if |lines| == 0 then ("", []) else (lines[0], lines[1..])
  }

  /** `pressEnterToContinue`: consumes one line. */
  function PressEnter(lines: seq<string>): seq<string> {
    ReadLine(lines).1
  }

  // ---------------------------------------------------------------------
  // Main menu

  datatype MenuAction = CreateSearch | ManageSearches | NotYetAvailable | Quit | InvalidOption

  /** The words that leave the program; case matters. */
  predicate IsQuitWord(choice: string) {
    choice == "q" || choice == "Q" || choice == "exit" || choice == "quit"
  }

  /** The menu's `switch` on an already trimmed choice. */
  function Action(choice: string): (r: MenuAction)
    ensures r == Quit <==> IsQuitWord(choice)
    ensures r == CreateSearch <==> choice == "1"
    ensures r == ManageSearches <==> choice == "2"
    ensures r == NotYetAvailable <==> choice == "3" || choice == "4" || choice == "5"
  {
    if choice == "1" then CreateSearch
    else if choice == "2" then ManageSearches
    else if choice == "3" || choice == "4" || choice == "5" then NotYetAvailable
    else if IsQuitWord(choice) then Quit
    else InvalidOption
  }

  /** The main menu reads a line and switches on it with surrounding white
      space removed. */
  function MenuChoice(line: string): MenuAction {
    Action(TrimSpace(line))
  }

  /** Surrounding white space does not change the menu's decision. */
  lemma MenuIgnoresPadding(pre: string, word: string, post: string)
    requires forall k :: 0 <= k < |pre| ==> IsSpace(pre[k])
    requires forall k :: 0 <= k < |post| ==> IsSpace(post[k])
    ensures MenuChoice(pre + word + post) == MenuChoice(word)
  {
    TrimSpacePadded(pre, word, post);
  }

  /** "quit" padded with any white space quits. */
  lemma PaddedQuitQuits(pre: string, post: string)
    requires forall k :: 0 <= k < |pre| ==> IsSpace(pre[k])
    requires forall k :: 0 <= k < |post| ==> IsSpace(post[k])
    ensures MenuChoice(pre + "quit" + post) == Quit
  {
    QuitChoice("quit");
    MenuIgnoresPadding(pre, "quit", post);
  }

  lemma QuitChoice(w: string)
    requires w == "quit"
    ensures MenuChoice(w) == Quit
  {
    assert !IsSpace(w[0]) && !IsSpace(w[3]);
    TrimSpaceOfTrimmed(w);
  }

  /** The quit words are case-sensitive. */
  lemma UpperCaseQuitRejected()
    ensures MenuChoice("QUIT") == InvalidOption
  {
    ShoutedQuitChoice("QUIT");
  }

  lemma ShoutedQuitChoice(w: string)
    requires w == "QUIT"
    ensures MenuChoice(w) == InvalidOption
  {
    assert !IsSpace(w[0]) && !IsSpace(w[3]);
    TrimSpaceOfTrimmed(w);
    assert w[0] != 'q' && w[0] != 'e' && |w| != 1;
  }

  // ---------------------------------------------------------------------
  // Listing cells

  /** Cuts a cell wider than `width` to its first `width - 3` characters
      followed by "...". */
  function Abbreviate(s: string, width: nat): (r: string)
    requires width >= 3
    ensures |r| <= width
    ensures |s| <= width ==> r == s
    ensures |s| > width ==> |r| == width && r[..width - 3] == s[..width - 3] && r[width - 3..] == "..."
  {
    if |s| > width then s[..width - 3] + "..." else s
  }

  /** A cell is abbreviated at most once: abbreviating again changes nothing. */
  lemma AbbreviateIdempotent(s: string, width: nat)
    requires width >= 3
    ensures Abbreviate(Abbreviate(s, width), width) == Abbreviate(s, width)
  {
  }

  const DescriptionWidth: nat := 22
  const UrlWidth: nat := 26

  /** The description cell: at most 22 characters, the first 19 kept. */
  function DescriptionCell(description: string): (r: string)
    ensures |r| <= DescriptionWidth
    ensures |description| > DescriptionWidth ==> r == description[..19] + "..."
    ensures |description| <= DescriptionWidth ==> r == description
  {
    Abbreviate(description, DescriptionWidth)
  }

  /** The arXiv URL cell: at most 26 characters, the first 23 kept. */
  function UrlCell(url: string): (r: string)
    ensures |r| <= UrlWidth
    ensures |url| > UrlWidth ==> r == url[..23] + "..."
    ensures |url| <= UrlWidth ==> r == url
  {
    Abbreviate(url, UrlWidth)
  }

  // ---------------------------------------------------------------------
  // Details view

  /** `defaultIfNullInt64`. */
  function DefaultIfNull(v: NullInt64, default: int): (r: int)
    ensures v.valid ==> r == v.int64
    ensures !v.valid ==> r == default
  {
    if v.valid then v.int64 else default
  }

  /** The nullable column a stored optional value reads back as. */
  function NullOf(o: Option<int>): NullInt64 {
    if o.Some? then NullInt64(o.value, true) else NullInt64(0, false)
  }

  /** A stored value reads back as itself, a missing one as the default;
      the default shows only for a missing value or one equal to it. */
  lemma DefaultIfNullRoundTrip(o: Option<int>, default: int)
    ensures o.Some? ==> DefaultIfNull(NullOf(o), default) == o.value
    ensures o.None? ==> DefaultIfNull(NullOf(o), default) == default
    ensures forall v: NullInt64 {:trigger DefaultIfNull(v, default)} ::
              DefaultIfNull(v, default) != default ==> v.valid
  {
  }

  /** The fields the details view prints that are not copied verbatim. */
  datatype Details = Details(resultsPerFetch: int, lastFetch: Option<int>)

  /** Results per fetch falls back to 50; a null last-fetch date shows as
      "Never" (`None`). */
  function DetailsOf(s: Search): (d: Details)
    ensures !s.resultsPerFetch.valid ==> d.resultsPerFetch == 50
    ensures s.resultsPerFetch.valid ==> d.resultsPerFetch == s.resultsPerFetch.int64
    ensures d.lastFetch.Some? <==> s.lastFetchDate.valid
  {
    Details(DefaultIfNull(s.resultsPerFetch, 50), if s.lastFetchDate.valid then Some(s.lastFetchDate.time) else None)
  }

  /** The nullable time column a stored optional instant reads back as. */
  function NullTimeOf(o: Option<int>): NullTime {
    if o.Some? then NullTime(o.value, true) else NullTime(0, false)
  }

  /** Whatever the row stored comes back in the details: the stored number
      of results per fetch or 50, and the stored last fetch or "Never". */
  lemma DetailsRoundTrip(s: Search, perFetch: Option<int>, lastFetch: Option<int>)
    ensures DetailsOf(s.(resultsPerFetch := NullOf(perFetch), lastFetchDate := NullTimeOf(lastFetch)))
            == Details(if perFetch.Some? then perFetch.value else 50, lastFetch)
  {
  }

  /** The database without the search `id`. */
  function Remove(db: seq<Search>, id: string): (r: seq<Search>)
    ensures forall x :: x in r <==> x in db && x.id != id
    ensures |r| <= |db|
    decreases |db|
  {
    if |db| == 0 then []
    else (if db[0].id == id then [] else [db[0]]) + Remove(db[1..], id)
  }

  /** Removing an id no record has leaves the database as it is. */
  lemma {:induction false} RemoveAbsent(db: seq<Search>, id: string)
    requires forall x :: x in db ==> x.id != id
    ensures Remove(db, id) == db
    decreases |db|
  {
    if |db| > 0 {
      assert db[0] in db;
      assert forall x :: x in db[1..] ==> x in db;
      RemoveAbsent(db[1..], id);
      assert [db[0]] + db[1..] == db;
    }
  }

  /** Removing twice removes nothing more. */
  lemma RemoveIdempotent(db: seq<Search>, id: string)
    ensures Remove(Remove(db, id), id) == Remove(db, id)
  {
    RemoveAbsent(Remove(db, id), id);
  }

  /** The confirmation `deleteSearch` accepts: "y" or "yes", ignoring case
      and surrounding white space. */
  predicate Confirmed(line: string) {
    ToLower(TrimSpace(line)) in ["y", "yes"]
  }

  /** The confirmation is "y" or "yes" compared without regard to case,
      after surrounding white space is removed. */
  lemma ConfirmedIffEqualFold(line: string)
    ensures Confirmed(line) <==> EqualFold(TrimSpace(line), "y") || EqualFold(TrimSpace(line), "yes")
  {
    var t := TrimSpace(line);
    LowerWords("y");
    LowerWords("yes");
    LowerIsEqualFold(t, "y");
    LowerIsEqualFold(t, "yes");
  }

  lemma LowerWords(w: string)
    requires w == "y" || w == "yes"
    ensures forall k :: 0 <= k < |w| ==> !IsUpper(w[k])
  {
  }

  /** Upper case and surrounding white space still confirm. */
  lemma ShoutedYesConfirms(pre: string, post: string)
    requires forall k :: 0 <= k < |pre| ==> IsSpace(pre[k])
    requires forall k :: 0 <= k < |post| ==> IsSpace(post[k])
    ensures Confirmed(pre + "YES" + post)
  {
    WordTrimmed("YES");
    ShoutedYesLowered("YES");
    TrimSpacePadded(pre, "YES", post);
  }

  /** A word without surrounding white space is its own trimmed form. */
  lemma WordTrimmed(w: string)
    requires w in ["YES", "yep"]
    ensures TrimSpace(w) == w
  {
    assert !IsSpace(w[0]) && !IsSpace(w[2]);
    TrimSpaceOfTrimmed(w);
  }

  lemma ShoutedYesLowered(w: string)
    requires w == "YES"
    ensures ToLower(w) == "yes"
  {
    var l := ToLower(w);
    assert IsUpper(w[0]) && IsUpper(w[1]) && IsUpper(w[2]);
    assert l[0] == 'y' && l[1] == 'e' && l[2] == 's';
    assert |l| == 3;
  }

  /** Only the two words confirm: "yep" and an empty line do not. */
  lemma OtherAnswersDecline()
    ensures !Confirmed("yep") && !Confirmed("")
  {
    WordTrimmed("yep");
    YepDeclines("yep");
    EmptyDeclines("");
  }

  lemma YepDeclines(w: string)
    requires w == "yep" && TrimSpace(w) == w
    ensures !Confirmed(w)
  {
    var l := ToLower(w);
    assert !IsUpper(w[2]) && l[2] == 'p';
    assert |l| == 3;
  }

  lemma EmptyDeclines(w: string)
    requires w == ""
    ensures !Confirmed(w)
  {
    TrimSpaceOfTrimmed(w);
  }

  /** `deleteSearch`: reads a confirmation and deletes the search only when
      it is confirmed; otherwise the database is unchanged. */
  function DeleteSearch(db: seq<Search>, id: string, lines: seq<string>): (r: (seq<Search>, seq<string>))
    ensures r.1 == ReadLine(lines).1
    ensures Confirmed(ReadLine(lines).0) ==> forall x :: x in r.0 <==> x in db && x.id != id
    ensures !Confirmed(ReadLine(lines).0) ==> r.0 == db
  {
    var (confirm, rest) := ReadLine(lines);
    if Confirmed(confirm) then (Remove(db, id), rest) else (db, rest)
  }

  /** The first record with the given id (`GetSearchWithStats`). */
  function FindSearch(db: seq<Search>, id: string): (r: Option<Search>)
    ensures r.Some? ==> r.value in db && r.value.id == id
    ensures r.None? ==> forall x :: x in db ==> x.id != id
    decreases |db|
  {
    if |db| == 0 then None else if db[0].id == id then Some(db[0]) else FindSearch(db[1..], id)
  }

  /** `viewSearchDetails`: shows a search and reads one choice; "d" leads to
      the deletion prompt, "f" and "e" wait for Enter, anything else returns
      to the listing. A search that cannot be found returns at once. */
  function ViewSearchDetails(db: seq<Search>, id: string, lines: seq<string>): (r: (seq<Search>, seq<string>))
    ensures forall x :: x in r.0 ==> x in db
    ensures r.0 != db ==> FindSearch(db, id).Some? && TrimSpace(ReadLine(lines).0) == "d"
    ensures r.0 != db ==> forall x :: x in r.0 <==> x in db && x.id != id
  {
    match FindSearch(db, id)
    case None => (db, lines)
    case Some(_) =>
      var (choice, rest) := ReadLine(lines);
      var c := TrimSpace(choice);
      if c == "d" then DeleteSearch(db, id, rest)
      else if c == "f" || c == "e" then (db, PressEnter(rest))
      else (db, rest)
  }

  // ---------------------------------------------------------------------
  // Creation

  /** What `createNewSearch` did: the lines left, and the record it asked
      the database to create, if it got that far. */
  datatype Created = Created(rest: seq<string>, record: Option<Search>)

  /** `createNewSearch`: reads a description and then a URL, both trimmed;
      an empty one aborts before any query (an empty description before the
      URL is even asked for). Otherwise the new record gets the given id,
      `now` as both timestamps, 50 results per fetch and no last fetch. */
  function CreateNewSearch(lines: seq<string>, id: string, now: int): (r: Created)
    ensures r.record.Some? <==> TrimSpace(ReadLine(lines).0) != "" && TrimSpace(ReadLine(ReadLine(lines).1).0) != ""
    ensures TrimSpace(ReadLine(lines).0) == "" ==> r.rest == ReadLine(lines).1
    ensures r.record.Some? ==>
              var s := r.record.value;
              && s.id == id
              && s.description == TrimSpace(ReadLine(lines).0)
              && s.arxivUrl == TrimSpace(ReadLine(ReadLine(lines).1).0)
              && s.resultsPerFetch == NullInt64(50, true)
              && !s.lastFetchDate.valid
              && s.createdAt == s.updatedAt == now
  {
    var (first, afterDescription) := ReadLine(lines);
    var description := TrimSpace(first);
    if description == "" then Created(afterDescription, None)
    else
      var (second, afterUrl) := ReadLine(afterDescription);
      var url := TrimSpace(second);
      if url == "" then Created(afterUrl, None)
      else Created(afterUrl, Some(Search(id, now, now, description, url, NullInt64(50, true), NullTime(0, false), 0, 0)))
  }

  /** The stored description and URL are already trimmed and not empty. */
  lemma CreatedFieldsTrimmed(lines: seq<string>, id: string, now: int)
    requires CreateNewSearch(lines, id, now).record.Some?
    ensures var s := CreateNewSearch(lines, id, now).record.value;
            s.description != "" && TrimSpace(s.description) == s.description &&
            s.arxivUrl != "" && TrimSpace(s.arxivUrl) == s.arxivUrl
  {
    TrimSpaceIdempotent(ReadLine(lines).0);
    TrimSpaceIdempotent(ReadLine(ReadLine(lines).1).0);
  }

  /** A created search shows 50 results per fetch and has never been fetched. */
  lemma CreatedDetails(lines: seq<string>, id: string, now: int)
    requires CreateNewSearch(lines, id, now).record.Some?
    ensures DetailsOf(CreateNewSearch(lines, id, now).record.value) == Details(50, None)
  {
  }
}
