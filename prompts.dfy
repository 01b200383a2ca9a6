/** The prompt record of src/types/prompt.ts and the list updates that the prompt
    library and its side panel share: delete by id, overwrite by id, prepend a new
    prompt, and the case-insensitive text search. */
module Prompts {
  import opened Wrappers
  import opened Strings
  import opened Seqs

  /** A stored prompt. Optional fields are `None` when the object does not carry
      them; the two dates are opaque instants supplied by the caller. */
  datatype Prompt = Prompt(
    id: string,
    name: string,
    content: string,
    description: Option<string>,
    category: Option<string>,
    tags: Option<seq<string>>,
    isPublic: bool,
    userId: string,
    createdAt: int,
    updatedAt: int,
    usageCount: int)

  /** A prompt category of the library's category list. */
  datatype PromptCategory = PromptCategory(id: string, name: string, color: Option<string>, userId: string)

  /** What a save hands over: a prompt without id, userId, createdAt, updatedAt and
      usageCount. An optional field that is `None` is a key the object leaves out. */
  datatype Draft = Draft(
    name: string,
    content: string,
    description: Option<string>,
    category: Option<string>,
    tags: Option<seq<string>>,
    isPublic: bool)

  /** The owner every new prompt is given until an auth context supplies one. */
  const DEFAULT_USER: string := "user1"

  /** The value of an object spread `{...base, ...top}` for one optional key. */
  function Spread<T>(base: Option<T>, top: Option<T>): (r: Option<T>)
    ensures top.Some? ==> r == top
    ensures top.None? ==> r == base
  {
    if top.Some? then top else base
  }

  // ---------------------------------------------------------------- delete

  function IdIsNot(id: string): Prompt -> bool {
    (p: Prompt) => p.id != id
  }

  /** `prev.filter(p => p.id !== id)`. */
  function DeleteById(ps: seq<Prompt>, id: string): seq<Prompt> {
    Filter(ps, IdIsNot(id))
  }

  /** Delete removes every prompt with the id, keeps every other prompt, and keeps
      their order. */
  lemma DeleteSpec(ps: seq<Prompt>, id: string)
    ensures IsSubsequence(DeleteById(ps, id), ps)
    ensures forall i :: 0 <= i < |DeleteById(ps, id)| ==> DeleteById(ps, id)[i].id != id
    ensures forall p :: p in DeleteById(ps, id) <==> p in ps && p.id != id
    ensures forall p :: multiset(DeleteById(ps, id))[p] == if p.id != id then multiset(ps)[p] else 0
  {
    FilterIsSubsequence(ps, IdIsNot(id));
    FilterMembers(ps, IdIsNot(id));
    FilterMultiset(ps, IdIsNot(id));
  }

  /** Deleting an id that no prompt has changes nothing. */
  lemma DeleteMissing(ps: seq<Prompt>, id: string)
    requires forall i :: 0 <= i < |ps| ==> ps[i].id != id
    ensures DeleteById(ps, id) == ps
  {
    FilterAll(ps, IdIsNot(id));
  }

  /** Deleting twice is deleting once. */
  lemma DeleteIdempotent(ps: seq<Prompt>, id: string)
    ensures DeleteById(DeleteById(ps, id), id) == DeleteById(ps, id)
  {
    DeleteMissing(DeleteById(ps, id), id);
  }

  // ---------------------------------------------------------------- update

  /** `{ ...p, ...d, updatedAt: now }`. */
  function Overwrite(p: Prompt, d: Draft, now: int): (r: Prompt)
    ensures r.id == p.id && r.userId == p.userId && r.createdAt == p.createdAt
    ensures r.usageCount == p.usageCount && r.updatedAt == now
    ensures r.name == d.name && r.content == d.content && r.isPublic == d.isPublic
    ensures r.description == Spread(p.description, d.description)
    ensures r.category == Spread(p.category, d.category)
    ensures r.tags == Spread(p.tags, d.tags)
  {
    p.(name := d.name, content := d.content,
       description := Spread(p.description, d.description),
       category := Spread(p.category, d.category),
       tags := Spread(p.tags, d.tags),
       isPublic := d.isPublic, updatedAt := now)
  }

  /** `prev.map(p => p.id === id ? { ...p, ...d, updatedAt: now } : p)`. */
  function UpdateById(ps: seq<Prompt>, id: string, d: Draft, now: int): (r: seq<Prompt>)
    ensures |r| == |ps|
    ensures forall i :: 0 <= i < |ps| && ps[i].id == id ==> r[i] == Overwrite(ps[i], d, now)
    ensures forall i :: 0 <= i < |ps| && ps[i].id != id ==> r[i] == ps[i]
    decreases |ps|
  {
    if ps == [] then []
    else (if ps[0].id == id then [Overwrite(ps[0], d, now)] else [ps[0]]) + UpdateById(ps[1..], id, d, now)
  }

  /** An update keeps every prompt's id, so the list's ids and their order are unchanged. */
  lemma UpdateKeepsIds(ps: seq<Prompt>, id: string, d: Draft, now: int)
    ensures forall i :: 0 <= i < |ps| ==> UpdateById(ps, id, d, now)[i].id == ps[i].id
  {
  }

  /** Updating an id that no prompt has changes nothing. */
  lemma UpdateMissing(ps: seq<Prompt>, id: string, d: Draft, now: int)
    requires forall i :: 0 <= i < |ps| ==> ps[i].id != id
    ensures UpdateById(ps, id, d, now) == ps
  {
  }

  /** Saving the same draft twice at the same instant is saving it once. */
  lemma UpdateIdempotent(ps: seq<Prompt>, id: string, d: Draft, now: int)
    ensures UpdateById(UpdateById(ps, id, d, now), id, d, now) == UpdateById(ps, id, d, now)
  {
    var r := UpdateById(ps, id, d, now);
    var rr := UpdateById(r, id, d, now);
    forall i | 0 <= i < |ps| ensures rr[i] == r[i] {
      if ps[i].id == id {
        assert Overwrite(Overwrite(ps[i], d, now), d, now) == Overwrite(ps[i], d, now);
      }
    }
  }

  // ---------------------------------------------------------------- create

  /** `{ ...d, id: newId, userId: "user1", createdAt: now, updatedAt: now, usageCount: 0 }`. */
  function Create(d: Draft, newId: string, now: int): (r: Prompt)
    ensures r.id == newId && r.userId == DEFAULT_USER && r.usageCount == 0
    ensures r.createdAt == now && r.updatedAt == now
    ensures r.name == d.name && r.content == d.content && r.isPublic == d.isPublic
    ensures r.description == d.description && r.category == d.category && r.tags == d.tags
  {
    Prompt(newId, d.name, d.content, d.description, d.category, d.tags, d.isPublic, DEFAULT_USER, now, now, 0)
  }

  /** The list after a save: the edited prompt's id overwritten, or a new prompt in front. */
  function Saved(ps: seq<Prompt>, editing: Option<Prompt>, d: Draft, newId: string, now: int): (r: seq<Prompt>)
    ensures editing.Some? ==> |r| == |ps|
    ensures editing.Some? ==> forall i :: 0 <= i < |ps| ==>
              r[i] == (if ps[i].id == editing.value.id then Overwrite(ps[i], d, now) else ps[i])
    ensures editing.None? ==> |r| == |ps| + 1 && r[1..] == ps
    ensures editing.None? ==> r[0] == Create(d, newId, now) && r[0].usageCount == 0
  {
    if editing.Some? then UpdateById(ps, editing.value.id, d, now) else [Create(d, newId, now)] + ps
  }

  // ---------------------------------------------------------------- search

  /** `s.toLowerCase().includes(q.toLowerCase())`. */
  predicate Mentions(s: string, q: string) {
    Contains(ToLower(s), ToLower(q))
  }

  /** The query occurs, ignoring ASCII case, in the name, the description (when
      there is one) or the content. */
  predicate TextMatches(p: Prompt, q: string) {
    Mentions(p.name, q) || (p.description.Some? && Mentions(p.description.value, q)) || Mentions(p.content, q)
  }

  /** `!cat || prompt.category === cat`. */
  predicate CategoryMatches(p: Prompt, cat: string) {
    cat == "" || p.category == Some(cat)
  }

  /** The empty query occurs in every text. */
  lemma EmptyQueryMatches(p: Prompt)
    ensures TextMatches(p, "")
  {
    ContainsEmpty(ToLower(p.name));
  }

  /** The search does not see the case of the query. */
  lemma SearchIgnoresCase(p: Prompt, q: string)
    ensures TextMatches(p, ToLower(q)) <==> TextMatches(p, q)
  {
    ToLowerIdempotent(q);
  }

  /** A query matches exactly when it occurs at some position of one of the three texts. */
  lemma TextMatchesAt(p: Prompt, q: string)
    ensures TextMatches(p, q) <==>
              (exists i :: OccursAt(ToLower(p.name), ToLower(q), i))
              || (p.description.Some? && exists i :: OccursAt(ToLower(p.description.value), ToLower(q), i))
              || (exists i :: OccursAt(ToLower(p.content), ToLower(q), i))
  {
    ContainsAt(ToLower(p.name), ToLower(q));
    ContainsAt(ToLower(p.content), ToLower(q));
    if p.description.Some? {
      ContainsAt(ToLower(p.description.value), ToLower(q));
    }
  }
}
