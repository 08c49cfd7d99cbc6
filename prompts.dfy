/**
 * The prompt store's records and the three list operations the controller
 * performs on them: save (an upsert keyed by title), delete by title and
 * search.
 */
module Prompts {
  import opened Wrappers
  import opened Text
  import opened Lists

  /** A "%Y-%m-%d %H:%M:%S" time stamp; its contents never matter to the store. */
  type Timestamp = string

  /** One stored prompt, the JSON object `{title, content, created_at, modified_at}`. */
  datatype Prompt = Prompt(title: string, content: string, createdAt: Timestamp, modifiedAt: Timestamp)

  /** No two records share a title. */
  ghost predicate UniqueTitles(ps: seq<Prompt>) {
    forall i, j :: 0 <= i < j < |ps| ==> ps[i].title != ps[j].title
  }

  /** Some record carries exactly this title (the comparison is case-sensitive). */
  predicate HasTitle(ps: seq<Prompt>, title: string) {
    exists i :: 0 <= i < |ps| && ps[i].title == title
  }

  /** The index the save loop stops at: the first record whose title equals `title`. */
  function FindTitle(ps: seq<Prompt>, title: string): (r: Option<nat>)
    ensures r.None? <==> !HasTitle(ps, title)
    ensures r.Some? ==> r.value < |ps| && ps[r.value].title == title
    ensures r.Some? ==> forall j :: 0 <= j < r.value ==> ps[j].title != title
  {
    if ps == [] then None
    else if ps[0].title == title then Some(0)
    else
      var r := FindTitle(ps[1..], title);
      assert HasTitle(ps[1..], title) ==> HasTitle(ps, title) by {
        if HasTitle(ps[1..], title) {
          var i :| 0 <= i < |ps[1..]| && ps[1..][i].title == title;
          assert ps[i + 1].title == title;
        }
      }
      assert HasTitle(ps, title) ==> HasTitle(ps[1..], title) by {
        if HasTitle(ps, title) {
          var i :| 0 <= i < |ps| && ps[i].title == title;
          assert ps[1..][i - 1].title == title;
        }
      }
      match r
      case None => None
      case Some(k) => Some(k + 1)
  }

  /** How a save attempt ended: the two validation errors, or which branch of the upsert ran. */
  datatype SaveOutcome = EmptyTitle | EmptyContent | Modified | Created {
    predicate Accepted() { Modified? || Created? }
  }

  datatype SaveResult = SaveResult(outcome: SaveOutcome, prompts: seq<Prompt>)

  /**
   * Saving the editor's title and content at time `now`: both are stripped, a
   * blank title and then a blank content are refused, the first record with the
   * same title gets the new content and modification time, and otherwise a new
   * record is appended.
   */
  function Upsert(ps: seq<Prompt>, titleInput: string, contentInput: string, now: Timestamp): SaveResult {
    var title := Strip(titleInput);
    var content := Strip(contentInput);
    if title == [] then SaveResult(EmptyTitle, ps)
    else if content == [] then SaveResult(EmptyContent, ps)
    else
      match FindTitle(ps, title)
      case Some(i) => SaveResult(Modified, ps[i := ps[i].(content := content, modifiedAt := now)])
      case None => SaveResult(Created, ps + [Prompt(title, content, now, now)])
  }

  /** A title or content that is blank after stripping is refused, in that order, and nothing changes. */
  lemma UpsertRejectsBlank(ps: seq<Prompt>, titleInput: string, contentInput: string, now: Timestamp)
    ensures var r := Upsert(ps, titleInput, contentInput, now);
      && (r.outcome == EmptyTitle <==> AllSpace(titleInput))
      && (r.outcome == EmptyContent <==> !AllSpace(titleInput) && AllSpace(contentInput))
      && (!r.outcome.Accepted() ==> r.prompts == ps)
  {
  }

  /**
   * Saving a title already present changes only the first record with that
   * title: its content becomes the stripped content and its modification time
   * `now`; its title, its creation time, the record count and every other
   * record stay as they were.
   */
  lemma UpsertModifiesFirstMatch(ps: seq<Prompt>, titleInput: string, contentInput: string, now: Timestamp, i: nat)
    requires !AllSpace(titleInput) && !AllSpace(contentInput)
    requires i < |ps| && ps[i].title == Strip(titleInput)
    requires forall j :: 0 <= j < i ==> ps[j].title != Strip(titleInput)
    ensures var r := Upsert(ps, titleInput, contentInput, now);
      && r.outcome == Modified
      && |r.prompts| == |ps|
      && r.prompts[i] == Prompt(ps[i].title, Strip(contentInput), ps[i].createdAt, now)
      && forall j :: 0 <= j < |ps| && j != i ==> r.prompts[j] == ps[j]
  {
  }

  /**
   * Saving a title not yet present appends exactly one record, with the
   * stripped title and content and both time stamps `now`; the existing
   * records are untouched.
   */
  lemma UpsertAppendsNew(ps: seq<Prompt>, titleInput: string, contentInput: string, now: Timestamp)
    requires !AllSpace(titleInput) && !AllSpace(contentInput)
    requires !HasTitle(ps, Strip(titleInput))
    ensures var r := Upsert(ps, titleInput, contentInput, now);
      && r.outcome == Created
      && |r.prompts| == |ps| + 1
      && r.prompts[..|ps|] == ps
      && r.prompts[|ps|] == Prompt(Strip(titleInput), Strip(contentInput), now, now)
  {
  }

  /**
   * After an accepted save, looking up the stripped title finds a record with
   * the stripped content, modified at `now`.
   */
  lemma UpsertStoresStripped(ps: seq<Prompt>, titleInput: string, contentInput: string, now: Timestamp)
    requires Upsert(ps, titleInput, contentInput, now).outcome.Accepted()
    ensures var r := Upsert(ps, titleInput, contentInput, now).prompts;
      var k := FindTitle(r, Strip(titleInput));
      && k.Some?
      && r[k.value].content == Strip(contentInput)
      && r[k.value].modifiedAt == now
  {
    var title := Strip(titleInput);
    var r := Upsert(ps, titleInput, contentInput, now).prompts;
    match FindTitle(ps, title)
    case Some(i) =>
      FindTitleAt(r, title, i);
    case None =>
      FindTitleAt(r, title, |ps|);
  }

  /** The first index holding a title is the one the lookup finds. */
  lemma FindTitleAt(ps: seq<Prompt>, title: string, i: nat)
    requires i < |ps| && ps[i].title == title
    requires forall j :: 0 <= j < i ==> ps[j].title != title
    ensures FindTitle(ps, title) == Some(i)
  {
  }

  /** A save never introduces a duplicate title. */
  lemma UpsertKeepsTitlesUnique(ps: seq<Prompt>, titleInput: string, contentInput: string, now: Timestamp)
    requires UniqueTitles(ps)
    ensures UniqueTitles(Upsert(ps, titleInput, contentInput, now).prompts)
  {
  }

  /** `[p for p in ps if p['title'] != title]`. */
  function WithoutTitle(ps: seq<Prompt>, title: string): seq<Prompt> {
    Filter(ps, (p: Prompt) => p.title != title)
  }

  /**
   * Deleting by title: the records whose title differs, or `None` ("not
   * found") when the filter removed nothing.
   */
  function DeleteByTitle(ps: seq<Prompt>, title: string): Option<seq<Prompt>> {
    var rest := WithoutTitle(ps, title);
    if |rest| < |ps| then Some(rest) else None
  }

  /**
   * Delete succeeds exactly when some record has the title; what remains is
   * every other record and none with that title, and when nothing matched the
   * list filtered is the list itself.
   */
  lemma DeleteFindsTitle(ps: seq<Prompt>, title: string)
    ensures DeleteByTitle(ps, title).Some? <==> HasTitle(ps, title)
    ensures !HasTitle(ps, title) ==> WithoutTitle(ps, title) == ps
    ensures forall p :: p in WithoutTitle(ps, title) <==> p in ps && p.title != title
  {
    FilterDrops(ps, (p: Prompt) => p.title != title);
  }

  /** Deleting from a concatenation deletes from each part: the survivors keep their relative order. */
  lemma DeleteKeepsOrder(a: seq<Prompt>, b: seq<Prompt>, title: string)
    ensures WithoutTitle(a + b, title) == WithoutTitle(a, title) + WithoutTitle(b, title)
  {
    FilterConcat(a, b, (p: Prompt) => p.title != title);
  }

  /** With unique titles, deleting a stored title removes exactly that one record. */
  lemma DeleteRemovesExactlyOne(ps: seq<Prompt>, i: nat)
    requires UniqueTitles(ps) && i < |ps|
    ensures DeleteByTitle(ps, ps[i].title) == Some(ps[..i] + ps[i + 1..])
  {
    var title := ps[i].title;
    var before, after := ps[..i], ps[i + 1..];
    assert ps == before + ([ps[i]] + after);
    DeleteKeepsOrder(before, [ps[i]] + after, title);
    DeleteKeepsOrder([ps[i]], after, title);
    forall j | 0 <= j < |before| ensures before[j].title != title { assert before[j] == ps[j]; }
    forall j | 0 <= j < |after| ensures after[j].title != title { assert after[j] == ps[i + 1 + j]; }
    WithoutAbsentTitle(before, title);
    WithoutAbsentTitle(after, title);
    assert WithoutTitle([ps[i]], title) == [] by {
      assert [ps[i]][1..] == [];
    }
    calc {
      WithoutTitle(ps, title);
      WithoutTitle(before, title) + WithoutTitle([ps[i]] + after, title);
      before + (WithoutTitle([ps[i]], title) + WithoutTitle(after, title));
      before + ([] + after);
      { assert [] + after == after; }
      before + after;
    }
  }

  lemma WithoutAbsentTitle(ps: seq<Prompt>, title: string)
    requires forall j :: 0 <= j < |ps| ==> ps[j].title != title
    ensures WithoutTitle(ps, title) == ps
  {
    FilterKeepsAll(ps, (p: Prompt) => p.title != title);
  }

  /** Deleting keeps titles unique. */
  lemma DeleteKeepsTitlesUnique(ps: seq<Prompt>, title: string)
    requires UniqueTitles(ps)
    ensures UniqueTitles(WithoutTitle(ps, title))
  {
    KeepKeepsTitlesUnique(ps, (p: Prompt) => p.title != title);
  }

  lemma {:induction false} KeepKeepsTitlesUnique(ps: seq<Prompt>, keep: Prompt -> bool)
    requires UniqueTitles(ps)
    ensures UniqueTitles(Filter(ps, keep))
    decreases |ps|
  {
    if ps != [] {
      KeepKeepsTitlesUnique(ps[1..], keep);
      var rest := Filter(ps[1..], keep);
      forall j | 0 <= j < |rest| ensures rest[j].title != ps[0].title {
        assert rest[j] in ps[1..];
      }
      var r := Filter(ps, keep);
      if keep(ps[0]) {
        assert r == [ps[0]] + rest;
        forall i, j | 0 <= i < j < |r| ensures r[i].title != r[j].title {
          if i > 0 { assert r[i] == rest[i - 1]; }
          assert r[j] == rest[j - 1];
        }
      }
    }
  }

  /** The search match: the lower-cased query occurs in the lower-cased title or content. */
  predicate Matches(p: Prompt, query: string) {
    Contains(query, Lower(p.title)) || Contains(query, Lower(p.content))
  }

  /**
   * The search box: the query is stripped and lower-cased; an empty query
   * shows every record, otherwise the records that match, in list order.
   */
  function Search(ps: seq<Prompt>, queryInput: string): seq<Prompt> {
    var query := Lower(Strip(queryInput));
    if query == [] then ps else Filter(ps, (p: Prompt) => Matches(p, query))
  }

  /**
   * A record is shown exactly when it is stored and either the query is blank
   * or the lower-cased query occurs in its lower-cased title or content; a
   * blank query shows the whole list unchanged.
   */
  lemma SearchSelects(ps: seq<Prompt>, queryInput: string)
    ensures AllSpace(queryInput) ==> Search(ps, queryInput) == ps
    ensures forall p :: p in Search(ps, queryInput) <==>
      p in ps &&
      (AllSpace(queryInput) ||
       (exists i :: OccursAt(Lower(Strip(queryInput)), Lower(p.title), i)) ||
       (exists i :: OccursAt(Lower(Strip(queryInput)), Lower(p.content), i)))
  {
  }

  /** Searching a concatenation searches each part: the results keep the list's order. */
  lemma SearchKeepsOrder(a: seq<Prompt>, b: seq<Prompt>, queryInput: string)
    ensures Search(a + b, queryInput) == Search(a, queryInput) + Search(b, queryInput)
  {
    var query := Lower(Strip(queryInput));
    if query != [] {
      FilterConcat(a, b, (p: Prompt) => Matches(p, query));
    }
  }

  /** The search ignores the case of the query. */
  lemma SearchIgnoresQueryCase(ps: seq<Prompt>, queryInput: string)
    ensures Search(ps, Lower(queryInput)) == Search(ps, queryInput)
  {
    LowerCommutesWithStrip(queryInput);
    LowerIdempotent(Strip(queryInput));
  }

  /** Filtering with a blank query would keep everything, so the blank-query shortcut agrees with the filter. */
  lemma SearchShortcutAgrees(ps: seq<Prompt>)
    ensures Filter(ps, (p: Prompt) => Matches(p, [])) == ps
  {
    forall i | 0 <= i < |ps| ensures Matches(ps[i], []) {
      EmptyIsEverywhere(Lower(ps[i].title));
    }
    FilterKeepsAll(ps, (p: Prompt) => Matches(p, []));
  }

  /** A worked example, re-saving a greeting with new content: one record, new content, creation time kept, modification time updated. */
  lemma GreetingExample(created: Timestamp, modified: Timestamp, now: Timestamp)
    ensures Upsert([Prompt("Greeting", "Hello", created, modified)], "Greeting", "Hi", now)
         == SaveResult(Modified, [Prompt("Greeting", "Hi", created, now)])
  {
    WordIsStripped("Greeting");
    WordIsStripped("Hi");
    var ps := [Prompt("Greeting", "Hello", created, modified)];
    assert FindTitle(ps, "Greeting") == Some(0);
  }

  /** A word that neither starts nor ends with whitespace is its own strip. */
  lemma WordIsStripped(w: string)
    requires w != [] && !IsSpace(w[0]) && !IsSpace(w[|w| - 1])
    ensures Strip(w) == w
  {
  }
}
