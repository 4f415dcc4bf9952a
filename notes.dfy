/**
 * The list pipelines of the notes page (app/notes/page.tsx): the tag list
 * offered by the "My Notes" filter, the "My Notes" list, the "Global Notes"
 * list, the "Recent" tab and the "Groups" tab.
 *
 * The note collections come from a mock-data provider and are parameters
 * here; timestamps are milliseconds (`Date.getTime()`).
 */
module NotesPage {
  import opened Wrappers
  import opened Text
  import opened Seqs
  import opened Sorting

  datatype Visibility = Public | Private

  /** An entry of `NOTES`: one of the current user's notes. */
  datatype Note = Note(
    id: string,
    title: string,
    notesGroupId: string,
    visibility: Visibility,
    rating: int,
    createdAt: int,
    updatedAt: int)

  /** An entry of `NOTES_GROUPS`. */
  datatype NotesGroup = NotesGroup(id: string, name: string, createdAt: int)

  datatype Author = Author(id: string, name: string)

  /** An entry of `GLOBAL_NOTES`: a shared note, with its group name copied in. */
  datatype GlobalNote = GlobalNote(
    id: string,
    title: string,
    author: Author,
    groupName: string,
    rating: int,
    viewCount: int,
    likeCount: int,
    dislikeCount: int,
    updatedAt: int)

  /** The `"asc" | "desc"` sort direction. */
  datatype SortOrder = Asc | Desc

  /** The state the "My Notes" list and the "Groups" tab share. */
  datatype MyNotesQuery = MyNotesQuery(
    searchTerm: string,
    sortBy: string,
    sortOrder: SortOrder,
    selectedTags: seq<string>)

  /** The state of the "Global Notes" section. */
  datatype GlobalNotesQuery = GlobalNotesQuery(
    searchTerm: string,
    sortBy: string,
    sortOrder: SortOrder,
    filterBy: seq<string>,
    minRating: int)

  /** The first group with the given id (`NOTES_GROUPS.find(g => g.id === id)`). */
  function FindGroup(groups: seq<NotesGroup>, id: string): (r: Option<NotesGroup>)
    ensures r.None? <==> forall g :: g in groups ==> g.id != id
    ensures r.Some? ==> r.value in groups && r.value.id == id
    decreases |groups|
  {
    if groups == [] then None
    else if groups[0].id == id then Some(groups[0])
    else
      assert groups == [groups[0]] + groups[1..];
      FindGroup(groups[1..], id)
  }

  /** `find` returns the group at the first position holding the id. */
  lemma {:induction false} FindGroupIsFirst(groups: seq<NotesGroup>, id: string, k: nat)
    requires k < |groups| && groups[k].id == id
    requires forall j :: 0 <= j < k ==> groups[j].id != id
    ensures FindGroup(groups, id) == Some(groups[k])
    decreases k
  {
    if k > 0 {
      FindGroupIsFirst(groups[1..], id, k - 1);
    }
  }

  // ---------------------------------------------------------------------
  // extractTags

  /** Title words longer than three characters become tags. */
  function IsTagWord(w: string): bool {
    |w| > 3
  }

  /** The words that `extractTags` takes from the titles, note by note, in title order. */
  function TitleWordTags(notes: seq<Note>): seq<string>
    decreases |notes|
  {
    if notes == [] then []
    else TitleWordTags(notes[..|notes| - 1]) + Filter(Split(notes[|notes| - 1].title, ' '), IsTagWord)
  }

  /** A word is among the title tags exactly when some title has it as a long word. */
  lemma {:induction false} TitleWordTagsMembers(notes: seq<Note>)
    ensures forall t :: t in TitleWordTags(notes) <==> exists n :: n in notes && t in Split(n.title, ' ') && IsTagWord(t)
    decreases |notes|
  {
    if notes != [] {
      var init, last := notes[..|notes| - 1], notes[|notes| - 1];
      TitleWordTagsMembers(init);
      assert notes == init + [last];
    }
  }

  function GroupNames(groups: seq<NotesGroup>): seq<string> {
    seq(|groups|, k requires 0 <= k < |groups| => groups[k].name)
  }

  /** Everything `extractTags` adds to its set, in the order it adds it. */
  function TagCandidates(notes: seq<Note>, groups: seq<NotesGroup>): seq<string> {
    TitleWordTags(notes) + GroupNames(groups)
  }

  /** One more word of the current title has been looked at. */
  lemma WordStep(prefix: seq<string>, words: seq<string>, j: nat)
    requires j < |words|
    ensures IsTagWord(words[j]) ==>
      prefix + Filter(words[..j + 1], IsTagWord) == (prefix + Filter(words[..j], IsTagWord)) + [words[j]]
    ensures !IsTagWord(words[j]) ==>
      prefix + Filter(words[..j + 1], IsTagWord) == prefix + Filter(words[..j], IsTagWord)
  {
    assert words[..j + 1] == words[..j] + [words[j]];
    FilterAppend(words[..j], [words[j]], IsTagWord);
    FilterCons(words[j], [], IsTagWord);
  }

  /** One more note has been looked at. */
  lemma NoteStep(notes: seq<Note>, i: nat)
    requires i < |notes|
    ensures TitleWordTags(notes[..i + 1]) == TitleWordTags(notes[..i]) + Filter(Split(notes[i].title, ' '), IsTagWord)
  {
    assert notes[..i + 1][..i] == notes[..i];
  }

  /** One more group has been looked at. */
  lemma GroupStep(prefix: seq<string>, groups: seq<NotesGroup>, k: nat)
    requires k < |groups|
    ensures prefix + GroupNames(groups[..k + 1]) == (prefix + GroupNames(groups[..k])) + [groups[k].name]
  {
    assert GroupNames(groups[..k + 1]) == GroupNames(groups[..k]) + [groups[k].name];
  }

  /** The tag candidates are the long title words and the group names. */
  lemma TagCandidatesMembers(notes: seq<Note>, groups: seq<NotesGroup>)
    ensures forall t :: t in TagCandidates(notes, groups) <==>
      (exists n :: n in notes && t in Split(n.title, ' ') && IsTagWord(t)) || (exists g :: g in groups && g.name == t)
  {
    TitleWordTagsMembers(notes);
    forall t | (exists g :: g in groups && g.name == t) ensures t in GroupNames(groups) {
      var g :| g in groups && g.name == t;
      var m :| 0 <= m < |groups| && groups[m] == g;
      assert GroupNames(groups)[m] == t;
    }
  }

  /** `words.forEach(...)`: adds each long word of one title to the set `tags` built from `before`. */
  method AddTitleWords(tags0: seq<string>, ghost before: seq<string>, words: seq<string>) returns (tags: seq<string>)
    requires tags0 == Dedup(before)
    ensures tags == Dedup(before + Filter(words, IsTagWord))
  {
    tags := tags0;
    var j := 0;
    assert before + Filter(words[..0], IsTagWord) == before;
    while j < |words|
      invariant 0 <= j <= |words|
      invariant tags == Dedup(before + Filter(words[..j], IsTagWord))
    {
      var word := words[j];
      WordStep(before, words, j);
      if IsTagWord(word) {
        DedupSnoc(before + Filter(words[..j], IsTagWord), word);
        if word !in tags {
          tags := tags + [word];
        }
      }
      j := j + 1;
    }
    assert words[..j] == words;
  }

  /** `NOTES_GROUPS.forEach(...)`: adds every group name to the set `tags` built from `titleTags`. */
  method AddGroupNames(tags0: seq<string>, ghost titleTags: seq<string>, groups: seq<NotesGroup>) returns (tags: seq<string>)
    requires tags0 == Dedup(titleTags)
    ensures tags == Dedup(titleTags + GroupNames(groups))
  {
    tags := tags0;
    var k := 0;
    assert GroupNames(groups[..0]) == [];
    assert titleTags + GroupNames(groups[..0]) == titleTags;
    while k < |groups|
      invariant 0 <= k <= |groups|
      invariant tags == Dedup(titleTags + GroupNames(groups[..k]))
    {
      var name := groups[k].name;
      GroupStep(titleTags, groups, k);
      DedupSnoc(titleTags + GroupNames(groups[..k]), name);
      if name !in tags {
        tags := tags + [name];
      }
      k := k + 1;
    }
    assert groups[..k] == groups;
  }

  /**
   * `extractTags`: adds the long title words of every note, then the name of
   * every group, to an insertion-ordered set, and returns its elements.
   */
  method ExtractTags(notes: seq<Note>, groups: seq<NotesGroup>) returns (tags: seq<string>)
    ensures tags == Dedup(TagCandidates(notes, groups))
    ensures NoDuplicates(tags)
    ensures forall t :: t in tags <==>
      (exists n :: n in notes && t in Split(n.title, ' ') && IsTagWord(t)) || (exists g :: g in groups && g.name == t)
    ensures |Dedup(TitleWordTags(notes))| <= |tags|
    ensures tags[..|Dedup(TitleWordTags(notes))|] == Dedup(TitleWordTags(notes))
  {
    tags := [];
    var i := 0;
    while i < |notes|
      invariant 0 <= i <= |notes|
      invariant tags == Dedup(TitleWordTags(notes[..i]))
    {
      tags := AddTitleWords(tags, TitleWordTags(notes[..i]), Split(notes[i].title, ' '));
      NoteStep(notes, i);
      i := i + 1;
    }
    assert notes[..i] == notes;
    tags := AddGroupNames(tags, TitleWordTags(notes), groups);
    TagCandidatesMembers(notes, groups);
    DedupPrefix(TitleWordTags(notes), GroupNames(groups));
  }

  // ---------------------------------------------------------------------
  // Comparators: `(a, b) => { switch (key) ...; return asc ? -comparison : comparison }`

  /** `sortOrder === "asc" ? -comparison : comparison` */
  function Directed(order: SortOrder, comparison: int): int {
    if order == Asc then -comparison else comparison
  }

  /** The comparator of the "My Notes" list; unknown keys fall back to `"recent-edit"`. */
  function MyNotesCompare(sortBy: string, order: SortOrder, a: Note, b: Note): int {
    var comparison :=
      if sortBy == "recent-edit" then b.updatedAt - a.updatedAt
      else if sortBy == "recent-upload" then b.createdAt - a.createdAt
      else if sortBy == "recent-view" then b.updatedAt - a.updatedAt
      else if sortBy == "title" then LocaleCompare(a.title, b.title)
      else b.updatedAt - a.updatedAt;
    Directed(order, comparison)
  }

  function MyNotesComparator(sortBy: string, order: SortOrder): (Note, Note) -> int {
    (a, b) => MyNotesCompare(sortBy, order, a, b)
  }

  /** The comparator of the "Global Notes" list; unknown keys fall back to `"recent"`. */
  function GlobalNotesCompare(sortBy: string, order: SortOrder, a: GlobalNote, b: GlobalNote): int {
    var comparison :=
      if sortBy == "recent" then b.updatedAt - a.updatedAt
      else if sortBy == "likes" then b.likeCount - a.likeCount
      else if sortBy == "views" then b.viewCount - a.viewCount
      else if sortBy == "rating" then b.rating - a.rating
      else if sortBy == "title" then LocaleCompare(a.title, b.title)
      else b.updatedAt - a.updatedAt;
    Directed(order, comparison)
  }

  function GlobalNotesComparator(sortBy: string, order: SortOrder): (GlobalNote, GlobalNote) -> int {
    (a, b) => GlobalNotesCompare(sortBy, order, a, b)
  }

  /** The comparator of the "Groups" tab: by name for `"title"`, by creation time otherwise. */
  function GroupsCompare(sortBy: string, order: SortOrder, a: NotesGroup, b: NotesGroup): int {
    if sortBy == "title" then
      (if order == Asc then LocaleCompare(a.name, b.name) else LocaleCompare(b.name, a.name))
    else
      (if order == Asc then a.createdAt - b.createdAt else b.createdAt - a.createdAt)
  }

  function GroupsComparator(sortBy: string, order: SortOrder): (NotesGroup, NotesGroup) -> int {
    (a, b) => GroupsCompare(sortBy, order, a, b)
  }

  /** Every sort key and direction of the "My Notes" list gives a consistent comparator. */
  lemma MyNotesComparatorConsistent(sortBy: string, order: SortOrder)
    ensures IsComparator(MyNotesComparator(sortBy, order))
  {
    var cmp := MyNotesComparator(sortBy, order);
    forall a, b, c ensures ComparatorAt(cmp, a, b, c) {
      LocaleCompareLaws(a.title, b.title, c.title);
    }
  }

  /** Every sort key and direction of the "Global Notes" list gives a consistent comparator. */
  lemma GlobalNotesComparatorConsistent(sortBy: string, order: SortOrder)
    ensures IsComparator(GlobalNotesComparator(sortBy, order))
  {
    var cmp := GlobalNotesComparator(sortBy, order);
    forall a, b, c ensures ComparatorAt(cmp, a, b, c) {
      LocaleCompareLaws(a.title, b.title, c.title);
    }
  }

  /** Every sort key and direction of the "Groups" tab gives a consistent comparator. */
  lemma GroupsComparatorConsistent(sortBy: string, order: SortOrder)
    ensures IsComparator(GroupsComparator(sortBy, order))
  {
    var cmp := GroupsComparator(sortBy, order);
    forall a, b, c ensures ComparatorAt(cmp, a, b, c) {
      LocaleCompareLaws(a.name, b.name, c.name);
      LocaleCompareLaws(c.name, b.name, a.name);
    }
  }

  // ---------------------------------------------------------------------
  // filteredMyNotes

  /** `k` is the first position of a group with id `id`. */
  predicate IsFirstWithId(groups: seq<NotesGroup>, id: string, k: int) {
    0 <= k < |groups| && groups[k].id == id && forall j :: 0 <= j < k ==> groups[j].id != id
  }

  function FirstIndexWithId(groups: seq<NotesGroup>, id: string): (k: nat)
    requires exists g :: g in groups && g.id == id
    ensures IsFirstWithId(groups, id, k)
    decreases |groups|
  {
    if groups[0].id == id then 0
    else
      assert exists g :: g in groups[1..] && g.id == id by {
        var g :| g in groups && g.id == id;
        assert g != groups[0];
        assert g in groups[1..];
      }
      1 + FirstIndexWithId(groups[1..], id)
  }

  /** The search of the "My Notes" list looks at the title only. */
  function MatchesTitleSearch(n: Note, term: string): bool {
    Contains(Lower(n.title), Lower(term))
  }

  /**
   * A selected tag matches a note when it occurs, ignoring case, in the
   * note's title or in the name of the note's group; `?.` makes a missing
   * group count as no match.
   */
  function TagMatches(n: Note, groups: seq<NotesGroup>, tag: string): bool {
    || Contains(Lower(n.title), Lower(tag))
    || match FindGroup(groups, n.notesGroupId)
       case Some(g) => Contains(Lower(g.name), Lower(tag))
       case None => false
  }

  /** `selectedTags.some(...)` */
  function MatchesSomeTag(n: Note, groups: seq<NotesGroup>, tags: seq<string>): bool {
    exists tag :: tag in tags && TagMatches(n, groups, tag)
  }

  /** The notes `filteredMyNotes` keeps: an empty search term and an empty tag selection keep everything. */
  predicate KeepsMyNote(n: Note, groups: seq<NotesGroup>, q: MyNotesQuery) {
    && (q.searchTerm == "" || MatchesTitleSearch(n, q.searchTerm))
    && (|q.selectedTags| == 0 || MatchesSomeTag(n, groups, q.selectedTags))
  }

  function MyNotesFilter(groups: seq<NotesGroup>, q: MyNotesQuery): Note -> bool {
    n => KeepsMyNote(n, groups, q)
  }

  /**
   * `filteredMyNotes`: the notes that pass the search and the tag filter,
   * in `NOTES` order, then sorted by the chosen key and direction.
   */
  function FilteredMyNotes(notes: seq<Note>, groups: seq<NotesGroup>, q: MyNotesQuery): seq<Note> {
    StableSort(Filter(notes, MyNotesFilter(groups, q)), MyNotesComparator(q.sortBy, q.sortOrder))
  }

  /** The staged computation of `filteredMyNotes`: `result` is narrowed by each active filter, then sorted. */
  method ComputeFilteredMyNotes(notes: seq<Note>, groups: seq<NotesGroup>, q: MyNotesQuery) returns (result: seq<Note>)
    ensures result == FilteredMyNotes(notes, groups, q)
  {
    var search := n => MatchesTitleSearch(n, q.searchTerm);
    var search' := n => q.searchTerm == "" || MatchesTitleSearch(n, q.searchTerm);
    var tags := n => MatchesSomeTag(n, groups, q.selectedTags);
    var tags' := n => |q.selectedTags| == 0 || MatchesSomeTag(n, groups, q.selectedTags);
    result := notes;
    if q.searchTerm != "" {
      result := Filter(result, search);
    }
    ConditionalFilter(notes, q.searchTerm != "", search, search');
    assert result == Filter(notes, search');
    var searched := result;
    if |q.selectedTags| > 0 {
      result := Filter(result, tags);
    }
    ConditionalFilter(searched, |q.selectedTags| > 0, tags, tags');
    FilterFilter(notes, search', tags', MyNotesFilter(groups, q));
    result := StableSort(result, MyNotesComparator(q.sortBy, q.sortOrder));
  }

  /**
   * `filteredMyNotes` is a reordering of the notes that pass both filters:
   * every passing note appears as often as in `NOTES`, no other note appears.
   */
  lemma FilteredMyNotesContents(notes: seq<Note>, groups: seq<NotesGroup>, q: MyNotesQuery)
    ensures forall n ::
              multiset(FilteredMyNotes(notes, groups, q))[n] == if KeepsMyNote(n, groups, q) then multiset(notes)[n] else 0
    ensures forall n :: n in FilteredMyNotes(notes, groups, q) <==> n in notes && KeepsMyNote(n, groups, q)
  {
    FilterCounts(notes, MyNotesFilter(groups, q));
  }

  /**
   * With a non-empty search term every listed title contains the term,
   * ignoring case; an empty term and no selected tags list every note.
   */
  lemma FilteredMyNotesSearch(notes: seq<Note>, groups: seq<NotesGroup>, q: MyNotesQuery)
    ensures q.searchTerm != "" ==>
      forall n :: n in FilteredMyNotes(notes, groups, q) ==> Contains(Lower(n.title), Lower(q.searchTerm))
    ensures q.searchTerm == "" && |q.selectedTags| == 0 ==>
      multiset(FilteredMyNotes(notes, groups, q)) == multiset(notes)
  {
    FilteredMyNotesContents(notes, groups, q);
    if q.searchTerm == "" && |q.selectedTags| == 0 {
      var r := FilteredMyNotes(notes, groups, q);
      assert forall n :: multiset(r)[n] == multiset(notes)[n];
    }
  }

  /** A search term that occurs in no title empties the list. */
  lemma FilteredMyNotesNoMatch(notes: seq<Note>, groups: seq<NotesGroup>, q: MyNotesQuery)
    requires q.searchTerm != ""
    requires forall n :: n in notes ==> !Contains(Lower(n.title), Lower(q.searchTerm))
    ensures FilteredMyNotes(notes, groups, q) == []
  {
    FilteredMyNotesContents(notes, groups, q);
    var r := FilteredMyNotes(notes, groups, q);
    assert forall i :: 0 <= i < |r| ==> r[i] in r;
  }

  /**
   * A tag matches through the title or through the name of the FIRST group
   * whose id is the note's group id; with no such group only the title counts.
   */
  lemma TagMatchesIff(n: Note, groups: seq<NotesGroup>, tag: string)
    ensures TagMatches(n, groups, tag) <==>
      || Contains(Lower(n.title), Lower(tag))
      || exists k :: IsFirstWithId(groups, n.notesGroupId, k) && Contains(Lower(groups[k].name), Lower(tag))
  {
    var id := n.notesGroupId;
    if exists g :: g in groups && g.id == id {
      var k := FirstIndexWithId(groups, id);
      FindGroupIsFirst(groups, id, k);
      forall k' | IsFirstWithId(groups, id, k') ensures k' == k {
      }
    } else {
      assert forall k :: 0 <= k < |groups| ==> groups[k] in groups;
    }
  }

  /** Every note listed while tags are selected matches one of them. */
  lemma FilteredMyNotesTags(notes: seq<Note>, groups: seq<NotesGroup>, q: MyNotesQuery)
    requires |q.selectedTags| > 0
    ensures forall n :: n in FilteredMyNotes(notes, groups, q) ==>
      exists tag :: tag in q.selectedTags && TagMatches(n, groups, tag)
  {
    FilteredMyNotesContents(notes, groups, q);
  }

  /**
   * The order the "My Notes" sort promises between an earlier and a later
   * entry. For `"title"` the direction names are reversed: `"desc"` lists
   * titles in ascending order.
   */
  predicate InMyNotesOrder(sortBy: string, order: SortOrder, a: Note, b: Note) {
    if sortBy == "title" then
      (if order == Desc then LocaleCompare(a.title, b.title) <= 0 else LocaleCompare(a.title, b.title) >= 0)
    else if sortBy == "recent-upload" then
      (if order == Desc then a.createdAt >= b.createdAt else a.createdAt <= b.createdAt)
    else
      (if order == Desc then a.updatedAt >= b.updatedAt else a.updatedAt <= b.updatedAt)
  }

  /** `filteredMyNotes` is sorted by its key: `"recent-view"` and unknown keys sort like `"recent-edit"`. */
  lemma FilteredMyNotesOrder(notes: seq<Note>, groups: seq<NotesGroup>, q: MyNotesQuery)
    ensures forall i, j :: 0 <= i < j < |FilteredMyNotes(notes, groups, q)| ==>
      InMyNotesOrder(q.sortBy, q.sortOrder, FilteredMyNotes(notes, groups, q)[i], FilteredMyNotes(notes, groups, q)[j])
  {
    var cmp := MyNotesComparator(q.sortBy, q.sortOrder);
    MyNotesComparatorConsistent(q.sortBy, q.sortOrder);
    StableSortSorted(Filter(notes, MyNotesFilter(groups, q)), cmp);
  }

  /** Notes whose sort keys tie are listed in their `NOTES` order. */
  lemma FilteredMyNotesStable(notes: seq<Note>, groups: seq<NotesGroup>, q: MyNotesQuery)
    ensures forall x :: Ties(FilteredMyNotes(notes, groups, q), MyNotesComparator(q.sortBy, q.sortOrder), x)
                     == Ties(Filter(notes, MyNotesFilter(groups, q)), MyNotesComparator(q.sortBy, q.sortOrder), x)
  {
    MyNotesComparatorConsistent(q.sortBy, q.sortOrder);
    StableSortStable(Filter(notes, MyNotesFilter(groups, q)), MyNotesComparator(q.sortBy, q.sortOrder));
  }

  /** Recomputing the list from its own output changes nothing. */
  lemma FilteredMyNotesIdempotent(notes: seq<Note>, groups: seq<NotesGroup>, q: MyNotesQuery)
    ensures FilteredMyNotes(FilteredMyNotes(notes, groups, q), groups, q) == FilteredMyNotes(notes, groups, q)
  {
    var r := FilteredMyNotes(notes, groups, q);
    var cmp := MyNotesComparator(q.sortBy, q.sortOrder);
    FilteredMyNotesContents(notes, groups, q);
    FilterAllPass(r, MyNotesFilter(groups, q));
    MyNotesComparatorConsistent(q.sortBy, q.sortOrder);
    StableSortSorted(Filter(notes, MyNotesFilter(groups, q)), cmp);
    StableSortOfSorted(r, cmp);
  }

  // ---------------------------------------------------------------------
  // filteredGlobalNotes

  /** The search of the "Global Notes" list looks at the title, the group name and the author's name. */
  function MatchesGlobalSearch(n: GlobalNote, term: string): bool {
    || Contains(Lower(n.title), Lower(term))
    || Contains(Lower(n.groupName), Lower(term))
    || Contains(Lower(n.author.name), Lower(term))
  }

  /** The global notes `filteredGlobalNotes` keeps. */
  predicate KeepsGlobalNote(n: GlobalNote, q: GlobalNotesQuery) {
    && (q.searchTerm == "" || MatchesGlobalSearch(n, q.searchTerm))
    && (|q.filterBy| == 0 || n.groupName in q.filterBy)
    && (q.minRating <= 0 || n.rating >= q.minRating)
  }

  function GlobalNotesFilter(q: GlobalNotesQuery): GlobalNote -> bool {
    n => KeepsGlobalNote(n, q)
  }

  /**
   * `filteredGlobalNotes`: the global notes that pass the search, the
   * subject filter and the minimum rating, then sorted by the chosen key.
   */
  function FilteredGlobalNotes(notes: seq<GlobalNote>, q: GlobalNotesQuery): seq<GlobalNote> {
    StableSort(Filter(notes, GlobalNotesFilter(q)), GlobalNotesComparator(q.sortBy, q.sortOrder))
  }

  /**
   * The staged computation of `filteredGlobalNotes`: search, then subject
   * filter (exact group names), then minimum rating (skipped at 0), then sort.
   */
  method ComputeFilteredGlobalNotes(notes: seq<GlobalNote>, q: GlobalNotesQuery) returns (result: seq<GlobalNote>)
    ensures result == FilteredGlobalNotes(notes, q)
  {
    var search := n => MatchesGlobalSearch(n, q.searchTerm);
    var search' := n => q.searchTerm == "" || MatchesGlobalSearch(n, q.searchTerm);
    var subject := (n: GlobalNote) => n.groupName in q.filterBy;
    var subject' := (n: GlobalNote) => |q.filterBy| == 0 || n.groupName in q.filterBy;
    var rated := (n: GlobalNote) => n.rating >= q.minRating;
    var rated' := (n: GlobalNote) => q.minRating <= 0 || n.rating >= q.minRating;
    var both := (n: GlobalNote) => search'(n) && subject'(n);
    result := notes;
    if q.searchTerm != "" {
      result := Filter(result, search);
    }
    ConditionalFilter(notes, q.searchTerm != "", search, search');
    assert result == Filter(notes, search');
    var searched := result;
    if |q.filterBy| > 0 {
      result := Filter(result, subject);
    }
    ConditionalFilter(searched, |q.filterBy| > 0, subject, subject');
    FilterFilter(notes, search', subject', both);
    assert result == Filter(notes, both);
    var subjects := result;
    if q.minRating > 0 {
      result := Filter(result, rated);
    }
    ConditionalFilter(subjects, q.minRating > 0, rated, rated');
    FilterFilter(notes, both, rated', GlobalNotesFilter(q));
    result := StableSort(result, GlobalNotesComparator(q.sortBy, q.sortOrder));
  }

  /** `filteredGlobalNotes` is a reordering of exactly the global notes that pass every filter. */
  lemma FilteredGlobalNotesContents(notes: seq<GlobalNote>, q: GlobalNotesQuery)
    ensures forall n ::
              multiset(FilteredGlobalNotes(notes, q))[n] == if KeepsGlobalNote(n, q) then multiset(notes)[n] else 0
    ensures forall n :: n in FilteredGlobalNotes(notes, q) <==> n in notes && KeepsGlobalNote(n, q)
  {
    FilterCounts(notes, GlobalNotesFilter(q));
  }

  /**
   * Each listed note meets every active filter: the search term occurs in
   * its title, group name or author name; its group is one of the chosen
   * subjects; its rating reaches the minimum.
   */
  lemma FilteredGlobalNotesFilters(notes: seq<GlobalNote>, q: GlobalNotesQuery)
    ensures forall n :: n in FilteredGlobalNotes(notes, q) ==>
      && (q.searchTerm != "" ==>
            || Contains(Lower(n.title), Lower(q.searchTerm))
            || Contains(Lower(n.groupName), Lower(q.searchTerm))
            || Contains(Lower(n.author.name), Lower(q.searchTerm)))
      && (|q.filterBy| > 0 ==> n.groupName in q.filterBy)
      && (q.minRating > 0 ==> n.rating >= q.minRating)
  {
    FilteredGlobalNotesContents(notes, q);
  }

  /** With every filter idle the list is a reordering of all global notes. */
  lemma FilteredGlobalNotesNoFilter(notes: seq<GlobalNote>, q: GlobalNotesQuery)
    requires q.searchTerm == "" && |q.filterBy| == 0 && q.minRating <= 0
    ensures multiset(FilteredGlobalNotes(notes, q)) == multiset(notes)
  {
    FilteredGlobalNotesContents(notes, q);
    var r := FilteredGlobalNotes(notes, q);
    assert forall n :: multiset(r)[n] == multiset(notes)[n];
  }

  /** The order the "Global Notes" sort promises; as for "My Notes", `"desc"` on `"title"` is A to Z. */
  predicate InGlobalOrder(sortBy: string, order: SortOrder, a: GlobalNote, b: GlobalNote) {
    if sortBy == "title" then
      (if order == Desc then LocaleCompare(a.title, b.title) <= 0 else LocaleCompare(a.title, b.title) >= 0)
    else if sortBy == "likes" then
      (if order == Desc then a.likeCount >= b.likeCount else a.likeCount <= b.likeCount)
    else if sortBy == "views" then
      (if order == Desc then a.viewCount >= b.viewCount else a.viewCount <= b.viewCount)
    else if sortBy == "rating" then
      (if order == Desc then a.rating >= b.rating else a.rating <= b.rating)
    else
      (if order == Desc then a.updatedAt >= b.updatedAt else a.updatedAt <= b.updatedAt)
  }

  /** `filteredGlobalNotes` is sorted by its key; unknown keys sort like `"recent"`. */
  lemma FilteredGlobalNotesOrder(notes: seq<GlobalNote>, q: GlobalNotesQuery)
    ensures forall i, j :: 0 <= i < j < |FilteredGlobalNotes(notes, q)| ==>
      InGlobalOrder(q.sortBy, q.sortOrder, FilteredGlobalNotes(notes, q)[i], FilteredGlobalNotes(notes, q)[j])
  {
    GlobalNotesComparatorConsistent(q.sortBy, q.sortOrder);
    StableSortSorted(Filter(notes, GlobalNotesFilter(q)), GlobalNotesComparator(q.sortBy, q.sortOrder));
  }

  /** Global notes whose sort keys tie keep their `GLOBAL_NOTES` order. */
  lemma FilteredGlobalNotesStable(notes: seq<GlobalNote>, q: GlobalNotesQuery)
    ensures forall x :: Ties(FilteredGlobalNotes(notes, q), GlobalNotesComparator(q.sortBy, q.sortOrder), x)
                     == Ties(Filter(notes, GlobalNotesFilter(q)), GlobalNotesComparator(q.sortBy, q.sortOrder), x)
  {
    GlobalNotesComparatorConsistent(q.sortBy, q.sortOrder);
    StableSortStable(Filter(notes, GlobalNotesFilter(q)), GlobalNotesComparator(q.sortBy, q.sortOrder));
  }

  /** Recomputing the list from its own output changes nothing. */
  lemma FilteredGlobalNotesIdempotent(notes: seq<GlobalNote>, q: GlobalNotesQuery)
    ensures FilteredGlobalNotes(FilteredGlobalNotes(notes, q), q) == FilteredGlobalNotes(notes, q)
  {
    var r := FilteredGlobalNotes(notes, q);
    var cmp := GlobalNotesComparator(q.sortBy, q.sortOrder);
    FilteredGlobalNotesContents(notes, q);
    FilterAllPass(r, GlobalNotesFilter(q));
    GlobalNotesComparatorConsistent(q.sortBy, q.sortOrder);
    StableSortSorted(Filter(notes, GlobalNotesFilter(q)), cmp);
    StableSortOfSorted(r, cmp);
  }

  // ---------------------------------------------------------------------
  // The "Groups" tab

  /** A group's name matches one of the selected tags, ignoring case. */
  function GroupMatchesSomeTag(g: NotesGroup, tags: seq<string>): bool {
    exists tag :: tag in tags && Contains(Lower(g.name), Lower(tag))
  }

  /** The group passes the search (`!myNotesSearchTerm || ...`) and the tag filter. */
  predicate KeepsGroup(g: NotesGroup, q: MyNotesQuery) {
    && (q.searchTerm == "" || Contains(Lower(g.name), Lower(q.searchTerm)))
    && (|q.selectedTags| == 0 || GroupMatchesSomeTag(g, q.selectedTags))
  }

  /** The groups listed on the "Groups" tab, in the order shown. */
  function VisibleGroups(groups: seq<NotesGroup>, q: MyNotesQuery): seq<NotesGroup> {
    var searched := Filter(groups, (g: NotesGroup) => q.searchTerm == "" || Contains(Lower(g.name), Lower(q.searchTerm)));
    var tagged := Filter(searched, (g: NotesGroup) => |q.selectedTags| == 0 || GroupMatchesSomeTag(g, q.selectedTags));
    StableSort(tagged, GroupsComparator(q.sortBy, q.sortOrder))
  }

  /** The notes shown inside a group's card, in `NOTES` order. */
  function GroupNotes(notes: seq<Note>, g: NotesGroup): (r: seq<Note>)
    ensures forall n :: n in r <==> n in notes && n.notesGroupId == g.id
  {
    Filter(notes, (n: Note) => n.notesGroupId == g.id)
  }

  lemma VisibleGroupsIsFilter(groups: seq<NotesGroup>, q: MyNotesQuery)
    ensures multiset(VisibleGroups(groups, q)) == multiset(Filter(groups, (g: NotesGroup) => KeepsGroup(g, q)))
  {
    var search := (g: NotesGroup) => q.searchTerm == "" || Contains(Lower(g.name), Lower(q.searchTerm));
    var tags := (g: NotesGroup) => |q.selectedTags| == 0 || GroupMatchesSomeTag(g, q.selectedTags);
    FilterFilter(groups, search, tags, (g: NotesGroup) => KeepsGroup(g, q));
  }

  /** The tab lists each group that passes both filters, as often as it occurs, and no other. */
  lemma VisibleGroupsContents(groups: seq<NotesGroup>, q: MyNotesQuery)
    ensures forall g ::
              multiset(VisibleGroups(groups, q))[g] == if KeepsGroup(g, q) then multiset(groups)[g] else 0
    ensures forall g :: g in VisibleGroups(groups, q) <==> g in groups && KeepsGroup(g, q)
  {
    VisibleGroupsIsFilter(groups, q);
    FilterCounts(groups, (g: NotesGroup) => KeepsGroup(g, q));
  }

  /**
   * The order of the "Groups" tab. Unlike the note lists it follows the
   * direction's name: `"asc"` on `"title"` is A to Z, `"asc"` otherwise is
   * oldest first.
   */
  lemma VisibleGroupsOrder(groups: seq<NotesGroup>, q: MyNotesQuery)
    ensures forall i, j :: 0 <= i < j < |VisibleGroups(groups, q)| ==>
      var a, b := VisibleGroups(groups, q)[i], VisibleGroups(groups, q)[j];
      if q.sortBy == "title" then
        (if q.sortOrder == Asc then LocaleCompare(a.name, b.name) <= 0 else LocaleCompare(a.name, b.name) >= 0)
      else
        (if q.sortOrder == Asc then a.createdAt <= b.createdAt else a.createdAt >= b.createdAt)
  {
    var search := (g: NotesGroup) => q.searchTerm == "" || Contains(Lower(g.name), Lower(q.searchTerm));
    var tags := (g: NotesGroup) => |q.selectedTags| == 0 || GroupMatchesSomeTag(g, q.selectedTags);
    var r := VisibleGroups(groups, q);
    GroupsComparatorConsistent(q.sortBy, q.sortOrder);
    StableSortSorted(Filter(Filter(groups, search), tags), GroupsComparator(q.sortBy, q.sortOrder));
    forall i, j | 0 <= i < j < |r|
      ensures if q.sortBy == "title" then
                (if q.sortOrder == Asc then LocaleCompare(r[i].name, r[j].name) <= 0 else LocaleCompare(r[i].name, r[j].name) >= 0)
              else
                (if q.sortOrder == Asc then r[i].createdAt <= r[j].createdAt else r[i].createdAt >= r[j].createdAt)
    {
      assert GroupsCompare(q.sortBy, q.sortOrder, r[i], r[j]) <= 0;
      if q.sortBy == "title" && q.sortOrder == Desc {
        LocaleCompareAntisymmetric(r[j].name, r[i].name);
      }
    }
  }

  // ---------------------------------------------------------------------
  // The "Recent" tab

  datatype Source = My | Global

  /** An entry of `combinedNotes`: the fields the "Recent" tab reads. */
  datatype RecentEntry = RecentEntry(
    id: string,
    title: string,
    rating: int,
    source: Source,
    lastViewed: int,
    groupName: Option<string>)

  /** A note of one's own, its group name looked up by id (`?.name`). */
  function MyEntry(groups: seq<NotesGroup>, n: Note): (e: RecentEntry)
    ensures e.source == My && e.id == n.id && e.lastViewed == n.updatedAt
    ensures e.groupName.Some? <==> exists g :: g in groups && g.id == n.notesGroupId
    ensures e.groupName.Some? ==> e.groupName.value == groups[FirstIndexWithId(groups, n.notesGroupId)].name
  {
    match FindGroup(groups, n.notesGroupId)
    case Some(g) =>
      FindGroupIsFirst(groups, n.notesGroupId, FirstIndexWithId(groups, n.notesGroupId));
      RecentEntry(n.id, n.title, n.rating, My, n.updatedAt, Some(g.name))
    case None =>
      RecentEntry(n.id, n.title, n.rating, My, n.updatedAt, None)
  }

  function GlobalEntry(n: GlobalNote): (e: RecentEntry)
    ensures e.source == Global && e.id == n.id && e.lastViewed == n.updatedAt && e.groupName == Some(n.groupName)
  {
    RecentEntry(n.id, n.title, n.rating, Global, n.updatedAt, Some(n.groupName))
  }

  /** `combinedNotes` before sorting: one's own notes, then the global ones. */
  function CombinedEntries(notes: seq<Note>, groups: seq<NotesGroup>, globals: seq<GlobalNote>): (r: seq<RecentEntry>)
    ensures |r| == |notes| + |globals|
    ensures forall i :: 0 <= i < |notes| ==> r[i] == MyEntry(groups, notes[i])
    ensures forall i :: 0 <= i < |globals| ==> r[|notes| + i] == GlobalEntry(globals[i])
  {
    seq(|notes|, i requires 0 <= i < |notes| => MyEntry(groups, notes[i]))
      + seq(|globals|, i requires 0 <= i < |globals| => GlobalEntry(globals[i]))
  }

  /** Most recently viewed first. */
  function RecencyCompare(a: RecentEntry, b: RecentEntry): int {
    b.lastViewed - a.lastViewed
  }

  function RecencyComparator(): (RecentEntry, RecentEntry) -> int {
    (a, b) => RecencyCompare(a, b)
  }

  const RecentLimit := 12

  /** `combinedNotes.slice(0, 12)` */
  function RecentlyViewed(notes: seq<Note>, groups: seq<NotesGroup>, globals: seq<GlobalNote>): seq<RecentEntry> {
    var sorted := StableSort(CombinedEntries(notes, groups, globals), RecencyComparator());
    if |sorted| <= RecentLimit then sorted else sorted[..RecentLimit]
  }

  lemma RecencyComparatorConsistent()
    ensures IsComparator(RecencyComparator())
  {
  }

  /** The "Recent" tab holds twelve entries, or all of them when there are fewer. */
  lemma RecentlyViewedLength(notes: seq<Note>, groups: seq<NotesGroup>, globals: seq<GlobalNote>)
    ensures |RecentlyViewed(notes, groups, globals)| ==
              (if |notes| + |globals| <= RecentLimit then |notes| + |globals| else RecentLimit)
  {
    var combined := CombinedEntries(notes, groups, globals);
    assert |multiset(StableSort(combined, RecencyComparator()))| == |multiset(combined)|;
  }

  /** The "Recent" tab lists the most recently viewed entry first. */
  lemma RecentlyViewedOrder(notes: seq<Note>, groups: seq<NotesGroup>, globals: seq<GlobalNote>)
    ensures forall i, j :: 0 <= i < j < |RecentlyViewed(notes, groups, globals)| ==>
              RecentlyViewed(notes, groups, globals)[i].lastViewed >= RecentlyViewed(notes, groups, globals)[j].lastViewed
  {
    RecencyComparatorConsistent();
    StableSortSorted(CombinedEntries(notes, groups, globals), RecencyComparator());
  }

  /** Each entry of the "Recent" tab comes from one of the two lists and carries that list's source mark. */
  lemma RecentlyViewedSources(notes: seq<Note>, groups: seq<NotesGroup>, globals: seq<GlobalNote>)
    ensures forall e :: e in RecentlyViewed(notes, groups, globals) ==>
              || (e.source == My && exists n :: n in notes && e == MyEntry(groups, n))
              || (e.source == Global && exists n :: n in globals && e == GlobalEntry(n))
  {
    var combined := CombinedEntries(notes, groups, globals);
    var sorted := StableSort(combined, RecencyComparator());
    var r := RecentlyViewed(notes, groups, globals);
    forall e | e in r
      ensures || (e.source == My && exists n :: n in notes && e == MyEntry(groups, n))
              || (e.source == Global && exists n :: n in globals && e == GlobalEntry(n))
    {
      assert e in sorted;
      assert e in multiset(combined);
      var k :| 0 <= k < |combined| && combined[k] == e;
      if k < |notes| {
        assert notes[k] in notes;
      } else {
        assert globals[k - |notes|] in globals;
      }
    }
  }

  /** No entry left off the tab is more recent than one on it. */
  lemma RecentlyViewedMostRecent(notes: seq<Note>, groups: seq<NotesGroup>, globals: seq<GlobalNote>)
    ensures var sorted := StableSort(CombinedEntries(notes, groups, globals), RecencyComparator());
      var r := RecentlyViewed(notes, groups, globals);
      && r == sorted[..|r|]
      && forall i, j :: 0 <= i < |r| <= j < |sorted| ==> sorted[i].lastViewed >= sorted[j].lastViewed
  {
    RecencyComparatorConsistent();
    StableSortSorted(CombinedEntries(notes, groups, globals), RecencyComparator());
  }

  /** Sorting two elements where the second does not go before the first. */
  lemma SortTwo<T>(x: T, y: T, cmp: (T, T) -> int)
    requires cmp(y, x) >= 0
    ensures StableSort([x, y], cmp) == [x, y]
  {
    assert [x, y][..1] == [x] && [x][..0] == [];
    assert StableSort([x], cmp) == [x];
    assert Insert(y, [x], cmp) == [x, y];
  }

  /** Sorting three elements where the second and third go after the first, and the third before the second. */
  lemma SortThree<T>(x: T, y: T, z: T, cmp: (T, T) -> int)
    requires cmp(y, x) >= 0 && cmp(z, x) >= 0 && cmp(z, y) < 0
    ensures StableSort([x, y, z], cmp) == [x, z, y]
  {
    SortTwo(x, y, cmp);
    assert [x, y, z][..2] == [x, y];
    assert StableSort([x, y, z], cmp) == Insert(z, [x, y], cmp);
    assert Insert(z, [y], cmp) == [z, y];
    assert [x, y][1..] == [y];
  }

  /** The three comparisons the scenario below needs. */
  lemma ScenarioTitleOrder()
    ensures LocaleCompare("Alpha", "Zeta") == -1
    ensures LocaleCompare("Mu", "Zeta") == -1
    ensures LocaleCompare("Mu", "Alpha") == 1
  {
    assert "Alpha"[0] < "Zeta"[0];
    assert "Mu"[0] < "Zeta"[0];
    assert "Mu"[0] > "Alpha"[0];
  }

  /**
   * The direction flip of the title sort on a concrete list: with `"asc"`,
   * titles Zeta, Alpha, Mu are listed Zeta, Mu, Alpha.
   */
  lemma TitleAscendingIsZToA(z: Note, a: Note, m: Note)
    requires z.title == "Zeta" && a.title == "Alpha" && m.title == "Mu"
    ensures FilteredMyNotes([z, a, m], [], MyNotesQuery("", "title", Asc, [])) == [z, m, a]
  {
    var q := MyNotesQuery("", "title", Asc, []);
    var cmp := MyNotesComparator("title", Asc);
    FilterAllPass([z, a, m], MyNotesFilter([], q));
    ScenarioTitleOrder();
    assert cmp(a, z) == 1 && cmp(m, z) == 1 && cmp(m, a) == -1;
    SortThree(z, a, m, cmp);
  }
}
