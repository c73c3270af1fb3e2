/**
 * The mock file browser of vm/js/filemanager.js: a hard-coded listing,
 * a selection of listing positions, a clipboard that snapshots the
 * selection, the sort order used when the listing is drawn, and the
 * search count. Dialog answers (`confirm`, `prompt`) and the search box's
 * text are parameters; the dialogs' messages are not modelled.
 */
module Files {
  import opened Wrappers
  import opened JsString

  datatype EntryType = Folder | File

  /** One record of the listing; `modified` is a date written YYYY-MM-DD. */
  datatype FileEntry = FileEntry(name: string, entryType: EntryType, size: nat, modified: string, icon: string)

  datatype ClipboardAction = Copy | Cut

  /** The listing that every load installs. */
  function Fixture(): (fs: seq<FileEntry>)
    ensures |fs| == 12
  {
    [ FileEntry("Desktop", Folder, 0, "2024-01-15", "\U{1F4C1}"),
      FileEntry("Documents", Folder, 0, "2024-01-10", "\U{1F4C1}"),
      FileEntry("Downloads", Folder, 0, "2024-01-20", "\U{1F4C1}"),
      FileEntry("Pictures", Folder, 0, "2024-01-05", "\U{1F4C1}"),
      FileEntry("Music", Folder, 0, "2024-01-01", "\U{1F4C1}"),
      FileEntry("Videos", Folder, 0, "2024-01-12", "\U{1F4C1}"),
      FileEntry("readme.txt", File, 1024, "2024-01-15", "\U{1F4C4}"),
      FileEntry("notes.md", File, 2048, "2024-01-14", "\U{1F4DD}"),
      FileEntry("image.jpg", File, 102400, "2024-01-13", "\U{1F5BC}\U{FE0F}"),
      FileEntry("script.sh", File, 512, "2024-01-12", "\U{1F4DC}"),
      FileEntry("data.csv", File, 5120, "2024-01-11", "\U{1F4CA}"),
      FileEntry("backup.zip", File, 1048576, "2024-01-10", "\U{1F4E6}") ]
  }

  // ---------------------------------------------------------------------
  // Sorting
  // ---------------------------------------------------------------------

  /**
   * The comparator handed to `Array.prototype.sort`: a negative value puts
   * `a` first. By name ascending, by size and by date descending; any other
   * criterion calls every pair equal.
   */
  function Compare(criterion: string, a: FileEntry, b: FileEntry): (r: int)
    ensures criterion == "name" ==> (r == 0 <==> a.name == b.name)
    ensures criterion == "size" ==> (r < 0 <==> a.size > b.size) && (r == 0 <==> a.size == b.size)
    ensures criterion == "date" ==> (r == 0 <==> a.modified == b.modified)
    ensures criterion != "name" && criterion != "size" && criterion != "date" ==> r == 0
  {
    if criterion == "name" then LexCompare(a.name, b.name)
    else if criterion == "size" then b.size - a.size
    else if criterion == "date" then LexCompare(b.modified, a.modified)
    else 0
  }

  /** `a` may stand before `b` in a sorted listing. */
  predicate Precedes(criterion: string, a: FileEntry, b: FileEntry)
  {
    Compare(criterion, a, b) <= 0
  }

  lemma CompareAntisymmetric(criterion: string, a: FileEntry, b: FileEntry)
    ensures Compare(criterion, a, b) == -Compare(criterion, b, a)
  {
    LexCompareAntisymmetric(a.name, b.name);
    LexCompareAntisymmetric(a.modified, b.modified);
  }

  lemma PrecedesTransitive(criterion: string, a: FileEntry, b: FileEntry, c: FileEntry)
    requires Precedes(criterion, a, b) && Precedes(criterion, b, c)
    ensures Precedes(criterion, a, c)
  {
    if criterion == "name" {
      LexCompareTransitive(a.name, b.name, c.name);
    } else if criterion == "date" {
      LexCompareTransitive(c.modified, b.modified, a.modified);
    }
  }

  predicate Sorted(criterion: string, s: seq<FileEntry>)
  {
    forall i, j :: 0 <= i < j < |s| ==> Precedes(criterion, s[i], s[j])
  }

  /**
   * Inserts `x` into a sorted listing in front of the first entry that
   * does not strictly precede it, so `x` stays ahead of the entries it ties
   * with.
   */
  function Insert(criterion: string, x: FileEntry, s: seq<FileEntry>): (r: seq<FileEntry>)
    ensures multiset(r) == multiset(s) + multiset{x}
  {
    if s == [] then [x]
    else
      assert s == [s[0]] + s[1..];
      if Compare(criterion, s[0], x) < 0 then [s[0]] + Insert(criterion, x, s[1..])
      else [x] + s
  }

  /**
   * The order `files.sort(comparator)` leaves: `Array.prototype.sort` is
   * stable, and a stable sort under a total preorder has one outcome, the
   * one this insertion sort builds.
   */
  function Sort(criterion: string, s: seq<FileEntry>): (r: seq<FileEntry>)
    ensures multiset(r) == multiset(s)
    ensures |r| == |s|
  {
    if s == [] then []
    else
      assert s == [s[0]] + s[1..];
      Insert(criterion, s[0], Sort(criterion, s[1..]))
  }

  /** An entry that may precede `x` and every entry of `s` may precede every entry of the insertion. */
  lemma {:induction false} InsertKeepsLowerBound(criterion: string, a: FileEntry, x: FileEntry, s: seq<FileEntry>)
    requires Precedes(criterion, a, x)
    requires forall k :: 0 <= k < |s| ==> Precedes(criterion, a, s[k])
    ensures forall k :: 0 <= k < |Insert(criterion, x, s)| ==> Precedes(criterion, a, Insert(criterion, x, s)[k])
  {
    if s != [] && Compare(criterion, s[0], x) < 0 {
      InsertKeepsLowerBound(criterion, a, x, s[1..]);
      assert Insert(criterion, x, s) == [s[0]] + Insert(criterion, x, s[1..]);
    }
  }

  /** A sorted listing stays sorted when an entry that may precede all of it is put in front. */
  lemma ConsSorted(criterion: string, a: FileEntry, s: seq<FileEntry>)
    requires Sorted(criterion, s)
    requires forall k :: 0 <= k < |s| ==> Precedes(criterion, a, s[k])
    ensures Sorted(criterion, [a] + s)
  {
    var r := [a] + s;
    forall i, j | 0 <= i < j < |r|
      ensures Precedes(criterion, r[i], r[j])
    {
      assert r[j] == s[j - 1];
      if i > 0 { assert r[i] == s[i - 1]; }
    }
  }

  lemma {:induction false} InsertSorted(criterion: string, x: FileEntry, s: seq<FileEntry>)
    requires Sorted(criterion, s)
    ensures Sorted(criterion, Insert(criterion, x, s))
  {
    if s == [] {
    } else if Compare(criterion, s[0], x) < 0 {
      assert Sorted(criterion, s[1..]);
      InsertSorted(criterion, x, s[1..]);
      InsertKeepsLowerBound(criterion, s[0], x, s[1..]);
      ConsSorted(criterion, s[0], Insert(criterion, x, s[1..]));
    } else {
      CompareAntisymmetric(criterion, s[0], x);
      forall k | 0 <= k < |s|
        ensures Precedes(criterion, x, s[k])
      {
        if k > 0 {
          PrecedesTransitive(criterion, x, s[0], s[k]);
        }
      }
      ConsSorted(criterion, x, s);
    }
  }

  lemma {:induction false} SortIsSorted(criterion: string, s: seq<FileEntry>)
    ensures Sorted(criterion, Sort(criterion, s))
  {
    if s != [] {
      SortIsSorted(criterion, s[1..]);
      InsertSorted(criterion, s[0], Sort(criterion, s[1..]));
    }
  }

  /** Sorting a listing that is already in order leaves it exactly as it was. */
  lemma {:induction false} SortOfSortedIsIdentity(criterion: string, s: seq<FileEntry>)
    requires Sorted(criterion, s)
    ensures Sort(criterion, s) == s
  {
    if s != [] {
      assert Sorted(criterion, s[1..]);
      SortOfSortedIsIdentity(criterion, s[1..]);
      if |s| > 1 {
        assert Precedes(criterion, s[0], s[1]);
        CompareAntisymmetric(criterion, s[0], s[1]);
      }
    }
  }

  /**
   * Redrawing the listing sorts it again; this moves no entry, so selected
   * positions keep naming the same files.
   */
  lemma SortIdempotent(criterion: string, s: seq<FileEntry>)
    ensures Sort(criterion, Sort(criterion, s)) == Sort(criterion, s)
  {
    SortIsSorted(criterion, s);
    SortOfSortedIsIdentity(criterion, Sort(criterion, s));
  }

  /** The entries of `s` that tie with `e` under the criterion, in their order in `s`. */
  function Ties(criterion: string, e: FileEntry, s: seq<FileEntry>): (r: seq<FileEntry>)
    ensures |r| <= |s|
    ensures forall k :: 0 <= k < |r| ==> Compare(criterion, r[k], e) == 0
  {
    if s == [] then []
    else (if Compare(criterion, s[0], e) == 0 then [s[0]] else []) + Ties(criterion, e, s[1..])
  }

  lemma TiesCons(criterion: string, e: FileEntry, a: FileEntry, u: seq<FileEntry>)
    ensures Ties(criterion, e, [a] + u) == (if Compare(criterion, a, e) == 0 then [a] else []) + Ties(criterion, e, u)
  {
    assert ([a] + u)[0] == a && ([a] + u)[1..] == u;
  }

  /** An entry that does not tie with `b` does not tie with anything `b` ties with. */
  lemma TieExcludes(criterion: string, a: FileEntry, b: FileEntry, e: FileEntry)
    requires Compare(criterion, a, b) != 0 && Compare(criterion, b, e) == 0
    ensures Compare(criterion, a, e) != 0
  {
  }

  /** The ties of `x` stay ahead when an entry that strictly precedes `x` is put in front of both listings. */
  lemma TiesSkip(criterion: string, e: FileEntry, x: FileEntry, a: FileEntry, t: seq<FileEntry>, rest: seq<FileEntry>)
    requires Compare(criterion, a, x) < 0
    requires Ties(criterion, e, t) == (if Compare(criterion, x, e) == 0 then [x] else []) + Ties(criterion, e, rest)
    ensures Ties(criterion, e, [a] + t) ==
      (if Compare(criterion, x, e) == 0 then [x] else []) + Ties(criterion, e, [a] + rest)
  {
    TiesCons(criterion, e, a, t);
    TiesCons(criterion, e, a, rest);
    if Compare(criterion, x, e) == 0 {
      TieExcludes(criterion, a, x, e);
    }
  }

  /** Inserting `x` puts it ahead of every entry it ties with and moves no tie past another. */
  lemma {:induction false} TiesOfInsert(criterion: string, e: FileEntry, x: FileEntry, s: seq<FileEntry>)
    ensures Ties(criterion, e, Insert(criterion, x, s)) ==
      (if Compare(criterion, x, e) == 0 then [x] else []) + Ties(criterion, e, s)
  {
    if s == [] {
      TiesCons(criterion, e, x, []);
    } else if Compare(criterion, s[0], x) < 0 {
      TiesOfInsert(criterion, e, x, s[1..]);
      TiesSkip(criterion, e, x, s[0], Insert(criterion, x, s[1..]), s[1..]);
      assert s == [s[0]] + s[1..];
    } else {
      TiesCons(criterion, e, x, s);
    }
  }

  /**
   * The sort is stable: the entries that tie with any given entry keep the
   * order they had before sorting, so of two tied entries the earlier one
   * still comes first.
   */
  lemma {:induction false} SortIsStable(criterion: string, e: FileEntry, s: seq<FileEntry>)
    ensures Ties(criterion, e, Sort(criterion, s)) == Ties(criterion, e, s)
  {
    if s != [] {
      SortIsStable(criterion, e, s[1..]);
      TiesOfInsert(criterion, e, s[0], Sort(criterion, s[1..]));
    }
  }

  lemma SortByNameAscending(s: seq<FileEntry>)
    ensures var r := Sort("name", s);
      forall i, j :: 0 <= i < j < |r| ==> LexCompare(r[i].name, r[j].name) <= 0
  {
    SortIsSorted("name", s);
  }

  lemma SortBySizeNonIncreasing(s: seq<FileEntry>)
    ensures var r := Sort("size", s);
      forall i, j :: 0 <= i < j < |r| ==> r[i].size >= r[j].size
  {
    SortIsSorted("size", s);
  }

  /** By date the newest entry comes first: no entry is older than one after it. */
  lemma SortByDateNonIncreasing(s: seq<FileEntry>)
    ensures var r := Sort("date", s);
      forall i, j :: 0 <= i < j < |r| ==> LexCompare(r[j].modified, r[i].modified) <= 0
  {
    SortIsSorted("date", s);
  }

  /** A criterion other than name, size and date keeps the listing's order. */
  lemma SortByUnknownCriterionKeepsOrder(criterion: string, s: seq<FileEntry>)
    requires criterion != "name" && criterion != "size" && criterion != "date"
    ensures Sort(criterion, s) == s
  {
    SortOfSortedIsIdentity(criterion, s);
  }

  // ---------------------------------------------------------------------
  // Dates
  // ---------------------------------------------------------------------

  /** A date written YYYY-MM-DD. */
  predicate IsIsoDate(d: string)
  {
    |d| == 10 && d[4] == '-' && d[7] == '-' && AllDigits(d[..4]) && AllDigits(d[5..7]) && AllDigits(d[8..])
  }

  /** The digits of a YYYY-MM-DD date with the dashes taken out. */
  function DateDigits(d: string): (r: string)
    requires IsIsoDate(d)
    ensures |r| == 8 && AllDigits(r)
  {
    d[..4] + (d[5..7] + d[8..])
  }

  /** The date as the number YYYYMMDD, whose order is the calendar order. */
  function DayNumber(d: string): nat
    requires IsIsoDate(d)
  {
    ParseDigits(DateDigits(d))
  }

  /** The dashes stand at the same places in both dates, so they never decide a comparison. */
  lemma DateTextComparesLikeDigits(a: string, b: string)
    requires IsIsoDate(a) && IsIsoDate(b)
    ensures LexCompare(a, b) == LexCompare(DateDigits(a), DateDigits(b))
  {
    assert a == a[..4] + ([a[4]] + a[5..]) && b == b[..4] + ([b[4]] + b[5..]);
    SharedCharDoesNotDecide(a[..4], a[5..], b[..4], b[5..], '-');
    assert a[5..] == a[5..7] + ([a[7]] + a[8..]) && b[5..] == b[5..7] + ([b[7]] + b[8..]);
    SharedCharDoesNotDecide(a[5..7], a[8..], b[5..7], b[8..], '-');
    LexCompareAppend(a[..4], a[5..], b[..4], b[5..]);
    LexCompareAppend(a[..4], a[5..7] + a[8..], b[..4], b[5..7] + b[8..]);
  }

  /** A character both strings carry at the same place after equally long heads never decides their order. */
  lemma SharedCharDoesNotDecide(x: string, y: string, x': string, y': string, c: char)
    requires |x| == |x'|
    ensures LexCompare(x + ([c] + y), x' + ([c] + y')) == LexCompare(x + y, x' + y')
  {
    LexCompareAppend(x, [c] + y, x', [c] + y');
    LexCompareAppend([c], y, [c], y');
    LexCompareAppend(x, y, x', y');
  }

  /**
   * On dates written YYYY-MM-DD, comparing the text puts the earlier date
   * first, which is what subtracting the two parsed `Date`s decides.
   */
  lemma DateTextOrderIsCalendarOrder(a: string, b: string)
    requires IsIsoDate(a) && IsIsoDate(b)
    ensures LexCompare(a, b) < 0 <==> DayNumber(a) < DayNumber(b)
    ensures LexCompare(a, b) == 0 <==> DayNumber(a) == DayNumber(b)
  {
    DateTextComparesLikeDigits(a, b);
    LexCompareDigits(DateDigits(a), DateDigits(b));
    LexCompareAntisymmetric(DateDigits(a), DateDigits(b));
    LexCompareDigits(DateDigits(b), DateDigits(a));
  }

  /** By date, a listing of YYYY-MM-DD dates comes out from the latest calendar day to the earliest. */
  lemma SortByDateIsNewestFirst(s: seq<FileEntry>)
    requires forall k :: 0 <= k < |s| ==> IsIsoDate(s[k].modified)
    ensures var r := Sort("date", s);
      forall i, j :: 0 <= i < j < |r| ==>
        IsIsoDate(r[i].modified) && IsIsoDate(r[j].modified) &&
        DayNumber(r[i].modified) >= DayNumber(r[j].modified)
  {
    var r := Sort("date", s);
    SortIsSorted("date", s);
    forall k | 0 <= k < |r|
      ensures IsIsoDate(r[k].modified)
    {
      assert r[k] in multiset(s);
    }
    forall i, j | 0 <= i < j < |r|
      ensures DayNumber(r[i].modified) >= DayNumber(r[j].modified)
    {
      assert Precedes("date", r[i], r[j]);
      DateTextOrderIsCalendarOrder(r[j].modified, r[i].modified);
    }
  }

  lemma FixtureDatesAreIsoDates()
    ensures forall k :: 0 <= k < |Fixture()| ==> IsIsoDate(Fixture()[k].modified)
  {
  }

  // ---------------------------------------------------------------------
  // Selection
  // ---------------------------------------------------------------------

  predicate NoDuplicates(s: seq<nat>)
  {
    forall i, j :: 0 <= i < j < |s| ==> s[i] != s[j]
  }

  /** `s.indexOf(x)`: the first position holding `x`, or -1. */
  function IndexOf(s: seq<nat>, x: nat): (r: int)
    ensures -1 <= r < |s|
    ensures r == -1 <==> x !in s
    ensures r >= 0 ==> s[r] == x && x !in s[..r]
  {
    if s == [] then -1
    else if s[0] == x then 0
    else
      var k := IndexOf(s[1..], x);
      assert s[1..][..k + 1] == s[1..k + 2] by { assert k + 1 <= |s[1..]| || k == -1; }
      if k == -1 then -1 else
        assert s[..k + 1] == [s[0]] + s[1..][..k];
        k + 1
  }

  /** `s.splice(k, 1)`: the element at position `k` taken out. */
  function RemoveAt(s: seq<nat>, k: nat): (r: seq<nat>)
    requires k < |s|
    ensures |r| == |s| - 1
    ensures forall i :: 0 <= i < k ==> r[i] == s[i]
    ensures forall i :: k <= i < |r| ==> r[i] == s[i + 1]
  {
    s[..k] + s[k + 1..]
  }

  /** The selection `toggleSelect(x)` leaves behind `s`. */
  function Toggled(s: seq<nat>, x: nat): (r: seq<nat>)
    ensures multiset(r) == if x in s then multiset(s) - multiset{x} else multiset(s) + multiset{x}
  {
    var k := IndexOf(s, x);
    if k > -1 then
      assert s == s[..k] + [x] + s[k + 1..];
      RemoveAt(s, k)
    else s + [x]
  }

  /** Taking one position out of a selection without duplicates removes exactly the index it held. */
  lemma RemoveAtFromDistinct(s: seq<nat>, k: nat)
    requires NoDuplicates(s) && k < |s|
    ensures NoDuplicates(RemoveAt(s, k))
    ensures s[k] !in RemoveAt(s, k)
    ensures forall y :: y != s[k] ==> (y in RemoveAt(s, k) <==> y in s)
  {
    var r := RemoveAt(s, k);
    forall i | 0 <= i < |r|
      ensures r[i] != s[k]
    {
      if i < k { assert s[i] != s[k]; } else { assert s[i + 1] != s[k]; }
    }
    forall y | y != s[k] && y in s
      ensures y in r
    {
      var m :| 0 <= m < |s| && s[m] == y;
      if m < k { assert r[m] == y; } else { assert r[m - 1] == y; }
    }
  }

  /**
   * Toggling keeps a selection free of duplicates, flips whether `x` is
   * selected and leaves every other position as it was.
   */
  lemma ToggledFlipsOnlyX(s: seq<nat>, x: nat)
    requires NoDuplicates(s)
    ensures NoDuplicates(Toggled(s, x))
    ensures x in Toggled(s, x) <==> x !in s
    ensures forall y :: y != x ==> (y in Toggled(s, x) <==> y in s)
  {
    var k := IndexOf(s, x);
    if k > -1 {
      RemoveAtFromDistinct(s, k);
    }
  }

  /** Toggling a position that was not selected, then toggling it again, restores the selection. */
  lemma ToggleUnselectedTwice(s: seq<nat>, x: nat)
    requires x !in s
    ensures Toggled(Toggled(s, x), x) == s
  {
    var t := s + [x];
    assert t[..|s|] == s;
  }

  /**
   * A position that was selected comes back from two toggles at the end of
   * the selection: the same set, not always the same order.
   */
  lemma ToggleSelectedTwice(s: seq<nat>, x: nat)
    requires NoDuplicates(s) && x in s
    ensures Toggled(Toggled(s, x), x) == RemoveAt(s, IndexOf(s, x)) + [x]
  {
    ToggledFlipsOnlyX(s, x);
  }

  // ---------------------------------------------------------------------
  // Search
  // ---------------------------------------------------------------------

  /** The search rule: the lower-cased name contains the (lower-cased) term. */
  predicate NameMatches(f: FileEntry, term: string)
  {
    Includes(ToLower(f.name), term)
  }

  /** How many entries `files.filter(...)` keeps for `term`. */
  function MatchCount(files: seq<FileEntry>, term: string): (r: nat)
    ensures r <= |files|
    ensures r == 0 <==> forall i :: 0 <= i < |files| ==> !NameMatches(files[i], term)
  {
    if files == [] then 0
    else MatchCount(files[..|files| - 1], term) + (if NameMatches(files[|files| - 1], term) then 1 else 0)
  }

  /** The positions of the entries a search for `term` finds. */
  ghost function MatchingPositions(files: seq<FileEntry>, term: string): set<nat>
  {
    set i: nat | i < |files| && NameMatches(files[i], term)
  }

  /** The positions found in a listing are those found in all but its last entry, plus the last one if it matches. */
  lemma MatchingPositionsOfLast(files: seq<FileEntry>, term: string)
    requires files != []
    ensures var n := |files| - 1;
      MatchingPositions(files, term) ==
        MatchingPositions(files[..n], term) + (if NameMatches(files[n], term) then {n} else {})
    ensures |files| - 1 !in MatchingPositions(files[..|files| - 1], term)
  {
    var n := |files| - 1;
    var p := files[..n];
    forall i: nat | i < n
      ensures NameMatches(files[i], term) == NameMatches(p[i], term)
    {
      assert p[i] == files[i];
    }
  }

  lemma {:induction false} MatchCountIsNumberOfMatches(files: seq<FileEntry>, term: string)
    ensures MatchCount(files, term) == |MatchingPositions(files, term)|
    ensures MatchCount(files, term) <= |files|
  {
    if files != [] {
      MatchCountIsNumberOfMatches(files[..|files| - 1], term);
      MatchingPositionsOfLast(files, term);
    }
  }

  // ---------------------------------------------------------------------
  // The controller
  // ---------------------------------------------------------------------

  /** What `renameItem` ends in; only `Renamed` shows the rename notice. */
  datatype RenameOutcome =
    | NotSingleSelection    // zero or several entries selected: nothing happens
    | NoSuchEntry           // the selected position holds no entry: reading its name throws
    | Declined              // the prompt was cancelled, left empty or kept the old name
    | Renamed(newName: string)

  class FileManager {
    var currentPath: string
    var selectedItems: seq<nat>
    var clipboard: seq<nat>
    var clipboardAction: Option<ClipboardAction>
    var viewMode: string
    var sortBy: string
    var files: seq<FileEntry>

    /**
     * The selection and the clipboard list each position once, and the
     * clipboard holds entries exactly when an action is recorded.
     */
    ghost predicate Valid()
      reads this
    {
      NoDuplicates(selectedItems) && NoDuplicates(clipboard) &&
      (|clipboard| > 0 <==> clipboardAction.Some?)
    }

    constructor ()
      ensures Valid()
      ensures currentPath == "/home/user" && viewMode == "grid" && sortBy == "name"
      ensures selectedItems == [] && clipboard == [] && clipboardAction == None
      ensures files == Fixture()
    {
      currentPath := "/home/user";
      selectedItems := [];
      clipboard := [];
      clipboardAction := None;
      viewMode := "grid";
      sortBy := "name";
      files := [];
      new;
      LoadFiles();
    }

    /** Installs the fixed listing; the selection is not touched. */
    method LoadFiles()
      modifies this`files
      ensures files == Fixture()
    {
      files := Fixture();
    }

    method NavigateTo(path: string)
      modifies this`currentPath, this`files
      ensures currentPath == path && files == Fixture()
    {
      currentPath := path;
      LoadFiles();
    }

    /** Sorts `files` in place and returns it, as drawing the listing does. */
    method SortFiles(criterion: string) returns (sorted: seq<FileEntry>)
      modifies this`files
      ensures files == Sort(criterion, old(files)) && sorted == files
      ensures multiset(files) == multiset(old(files))
      ensures Sorted(criterion, files)
    {
      SortIsSorted(criterion, files);
      files := Sort(criterion, files);
      sorted := files;
    }

    /** Deselects `index` if it is selected, and otherwise appends it to the selection. */
    method ToggleSelect(index: nat)
      requires Valid()
      modifies this`selectedItems
      ensures Valid()
      ensures selectedItems == Toggled(old(selectedItems), index)
      ensures index in selectedItems <==> index !in old(selectedItems)
      ensures forall y :: y != index ==> (y in selectedItems <==> y in old(selectedItems))
    {
      ToggledFlipsOnlyX(selectedItems, index);
      var itemIndex := IndexOf(selectedItems, index);
      if itemIndex > -1 {
        selectedItems := selectedItems[..itemIndex] + selectedItems[itemIndex + 1..];
      } else {
        selectedItems := selectedItems + [index];
      }
    }

    method SelectSingle(index: nat)
      requires Valid()
      modifies this`selectedItems
      ensures Valid()
      ensures selectedItems == [index]
    {
      selectedItems := [index];
    }

    /** With a selection, the clipboard becomes a copy of it marked for copying. */
    method CopySelected()
      requires Valid()
      modifies this`clipboard, this`clipboardAction
      ensures Valid()
      ensures |selectedItems| > 0 ==> clipboard == selectedItems && clipboardAction == Some(Copy)
      ensures |selectedItems| == 0 ==> clipboard == old(clipboard) && clipboardAction == old(clipboardAction)
    {
      if |selectedItems| > 0 {
        clipboard := selectedItems;
        clipboardAction := Some(Copy);
      }
    }

    /** With a selection, the clipboard becomes a copy of it marked for moving. */
    method CutSelected()
      requires Valid()
      modifies this`clipboard, this`clipboardAction
      ensures Valid()
      ensures |selectedItems| > 0 ==> clipboard == selectedItems && clipboardAction == Some(Cut)
      ensures |selectedItems| == 0 ==> clipboard == old(clipboard) && clipboardAction == old(clipboardAction)
    {
      if |selectedItems| > 0 {
        clipboard := selectedItems;
        clipboardAction := Some(Cut);
      }
    }

    /** A paste after a cut empties the clipboard; after a copy it can be repeated. */
    method PasteHere()
      requires Valid()
      modifies this`clipboard, this`clipboardAction
      ensures Valid()
      ensures |old(clipboard)| > 0 && old(clipboardAction) == Some(Cut) ==>
        clipboard == [] && clipboardAction == None
      ensures !(|old(clipboard)| > 0 && old(clipboardAction) == Some(Cut)) ==>
        clipboard == old(clipboard) && clipboardAction == old(clipboardAction)
    {
      if |clipboard| > 0 {
        if clipboardAction == Some(Cut) {
          clipboard := [];
          clipboardAction := None;
        }
      }
    }

    /** `confirmed` is the answer to the confirmation dialog. */
    method DeleteSelected(confirmed: bool)
      requires Valid()
      modifies this`selectedItems
      ensures Valid()
      ensures selectedItems == if |old(selectedItems)| > 0 && confirmed then [] else old(selectedItems)
    {
      if |selectedItems| > 0 {
        if confirmed {
          selectedItems := [];
        }
      }
    }

    /** `answer` is what the rename prompt returns: None when it is cancelled. */
    method RenameItem(answer: Option<string>) returns (outcome: RenameOutcome)
      ensures outcome == NotSingleSelection <==> |selectedItems| != 1
      ensures outcome == NoSuchEntry <==> |selectedItems| == 1 && selectedItems[0] >= |files|
      ensures outcome.Renamed? <==>
        |selectedItems| == 1 && selectedItems[0] < |files| &&
        answer.Some? && answer.value != "" && answer.value != files[selectedItems[0]].name
      ensures outcome.Renamed? ==> answer == Some(outcome.newName)
    {
      if |selectedItems| != 1 {
        return NotSingleSelection;
      }
      if selectedItems[0] >= |files| {
        return NoSuchEntry;
      }
      var file := files[selectedItems[0]];
      match answer {
        case Some(newName) =>
          if newName != "" && newName != file.name {
            return Renamed(newName);
          }
        case None =>
      }
      outcome := Declined;
    }

    /**
     * `input` is the search box's text. An empty term reports nothing;
     * otherwise the report is how many names contain the term, both
     * lower-cased.
     */
    method SearchFiles(input: string) returns (found: Option<nat>)
      ensures found.None? <==> input == ""
      ensures found.Some? ==> found.value == |MatchingPositions(files, ToLower(input))|
      ensures found.Some? ==> found.value <= |files|
    {
      var searchTerm := ToLower(input);
      if searchTerm != "" {
        MatchCountIsNumberOfMatches(files, searchTerm);
        found := Some(MatchCount(files, searchTerm));
      } else {
        found := None;
      }
    }
  }

  /**
   * The clipboard keeps the selection it was copied from: reselecting,
   * toggling and deleting afterwards do not reach it.
   */
  method ClipboardIsSnapshot(fm: FileManager, i: nat, j: nat)
    requires fm.Valid() && |fm.selectedItems| > 0
    modifies fm
    ensures fm.Valid()
    ensures fm.clipboard == old(fm.selectedItems) && fm.clipboardAction == Some(Copy)
    ensures fm.selectedItems == []
  {
    fm.CopySelected();
    fm.SelectSingle(i);
    fm.ToggleSelect(j);
    fm.DeleteSelected(true);
  }

  /** After a copy, the clipboard survives any number of pastes. */
  method RepeatedPasteAfterCopy(fm: FileManager)
    requires fm.Valid() && |fm.selectedItems| > 0
    modifies fm
    ensures fm.Valid()
    ensures fm.clipboard == old(fm.selectedItems) && fm.clipboardAction == Some(Copy)
  {
    fm.CopySelected();
    fm.PasteHere();
    fm.PasteHere();
  }
}
