/** The prompt library view (src/components/prompt-library.tsx): its search and
    category filter and its list state, updated by the create, edit, delete and
    save handlers. */
module PromptLibrary {
  import opened Wrappers
  import opened Strings
  import opened Seqs
  import opened Prompts

  /** The library's filter test. An empty query passes every prompt before any
      text is searched. */
  predicate Matches(p: Prompt, q: string, cat: string) {
    (q == "" || TextMatches(p, q)) && CategoryMatches(p, cat)
  }

  function MatchesFilter(q: string, cat: string): Prompt -> bool {
    (p: Prompt) => Matches(p, q, cat)
  }

  /** `filteredPrompts`. */
  function Filtered(ps: seq<Prompt>, q: string, cat: string): seq<Prompt> {
    Filter(ps, MatchesFilter(q, cat))
  }

  /** The filter keeps, in order, exactly the prompts that pass both tests. */
  lemma FilteredSpec(ps: seq<Prompt>, q: string, cat: string)
    ensures IsSubsequence(Filtered(ps, q, cat), ps)
    ensures forall p :: p in Filtered(ps, q, cat) <==>
              p in ps && (q == "" || TextMatches(p, q)) && (cat == "" || p.category == Some(cat))
    ensures forall p :: multiset(Filtered(ps, q, cat))[p] ==
              if (q == "" || TextMatches(p, q)) && (cat == "" || p.category == Some(cat)) then multiset(ps)[p] else 0
  {
    FilterIsSubsequence(ps, MatchesFilter(q, cat));
    FilterMembers(ps, MatchesFilter(q, cat));
    FilterMultiset(ps, MatchesFilter(q, cat));
  }

  /** With no query and no category every prompt is shown. */
  lemma NoFilterShowsAll(ps: seq<Prompt>)
    ensures Filtered(ps, "", "") == ps
  {
    FilterAll(ps, MatchesFilter("", ""));
  }

  /** A prompt without a category is shown only while no category is selected. */
  lemma UncategorizedNeedsNoCategory(ps: seq<Prompt>, q: string, cat: string, p: Prompt)
    requires p in ps && p.category.None?
    ensures p in Filtered(ps, q, cat) ==> cat == ""
  {
    FilteredSpec(ps, q, cat);
  }

  /** The component's state: the list, whether the editor is open, and the prompt
      being edited (`None` while creating). */
  datatype Library = Library(prompts: seq<Prompt>, editorOpen: bool, editing: Option<Prompt>)

  /** `handleCreatePrompt`. */
  function CreatePressed(l: Library): (r: Library)
    ensures r.prompts == l.prompts && r.editorOpen && r.editing.None?
  {
    l.(editorOpen := true, editing := None)
  }

  /** `handleEditPrompt`. */
  function EditPressed(l: Library, p: Prompt): (r: Library)
    ensures r.prompts == l.prompts && r.editorOpen && r.editing == Some(p)
  {
    l.(editorOpen := true, editing := Some(p))
  }

  /** `handleDeletePrompt`: the list loses the id; the editor state is untouched. */
  function Delete(l: Library, id: string): (r: Library)
    ensures r.editorOpen == l.editorOpen && r.editing == l.editing
    ensures IsSubsequence(r.prompts, l.prompts)
    ensures forall p :: p in r.prompts <==> p in l.prompts && p.id != id
    ensures forall p :: multiset(r.prompts)[p] == if p.id != id then multiset(l.prompts)[p] else 0
  {
    DeleteSpec(l.prompts, id);
    l.(prompts := DeleteById(l.prompts, id))
  }

  /** `handleSavePrompt`: the list after the save, with the editor closed and cleared.
      `newId` and `now` stand for `Date.now().toString()` and `new Date()`. */
  function Save(l: Library, d: Draft, newId: string, now: int): (r: Library)
    ensures !r.editorOpen && r.editing.None?
    ensures r.prompts == Saved(l.prompts, l.editing, d, newId, now)
  {
    Library(Saved(l.prompts, l.editing, d, newId, now), false, None)
  }

  /** Editing a prompt and saving overwrites the entries with its id, keeping their
      id, owner, creation time and usage count, and changes no other entry. */
  lemma EditThenSave(l: Library, p: Prompt, d: Draft, newId: string, now: int)
    ensures var r := Save(EditPressed(l, p), d, newId, now).prompts;
            && |r| == |l.prompts|
            && (forall i :: 0 <= i < |r| && l.prompts[i].id != p.id ==> r[i] == l.prompts[i])
            && (forall i :: 0 <= i < |r| && l.prompts[i].id == p.id ==>
                  var q := l.prompts[i];
                  && r[i].id == q.id && r[i].userId == q.userId && r[i].createdAt == q.createdAt
                  && r[i].usageCount == q.usageCount && r[i].updatedAt == now
                  && r[i].name == d.name && r[i].content == d.content && r[i].isPublic == d.isPublic)
  {
  }

  /** Creating and saving puts one unused prompt in front of the unchanged list. */
  lemma CreateThenSave(l: Library, d: Draft, newId: string, now: int)
    ensures var r := Save(CreatePressed(l), d, newId, now).prompts;
            && |r| == |l.prompts| + 1
            && r[1..] == l.prompts
            && r[0].id == newId && r[0].usageCount == 0 && r[0].userId == DEFAULT_USER
            && r[0].name == d.name && r[0].content == d.content
  {
  }
}
