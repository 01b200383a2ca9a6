/** The prompt library side panel (src/components/prompt-library-side-panel.tsx):
    its filter, the save, select and back transitions, and the grouping of the
    filtered prompts by category. */
module PromptSidePanel {
  import opened Wrappers
  import opened Objects
  import opened Strings
  import opened Seqs
  import opened Grouping
  import opened Prompts
  import PromptLibrary

  /** The panel's filter test: unlike the library, the text is always searched. */
  predicate Matches(p: Prompt, q: string, cat: string) {
    TextMatches(p, q) && CategoryMatches(p, cat)
  }

  function MatchesFilter(q: string, cat: string): Prompt -> bool {
    (p: Prompt) => Matches(p, q, cat)
  }

  /** `filteredPrompts`. */
  function Filtered(ps: seq<Prompt>, q: string, cat: string): seq<Prompt> {
    Filter(ps, MatchesFilter(q, cat))
  }

  /** The filter keeps, in order, exactly the prompts that pass both tests. */
  lemma FilteredSpec(ps: seq<Prompt>, q: string, cat: string)
    ensures IsSubsequence(Filtered(ps, q, cat), ps)
    ensures forall p :: p in Filtered(ps, q, cat) <==>
              p in ps && TextMatches(p, q) && (cat == "" || p.category == Some(cat))
    ensures forall p :: multiset(Filtered(ps, q, cat))[p] ==
              if TextMatches(p, q) && (cat == "" || p.category == Some(cat)) then multiset(ps)[p] else 0
  {
    FilterIsSubsequence(ps, MatchesFilter(q, cat));
    FilterMembers(ps, MatchesFilter(q, cat));
    FilterMultiset(ps, MatchesFilter(q, cat));
  }

  /** The missing short-circuit makes no difference: the empty query occurs in every
      name, so the panel shows exactly what the library shows. */
  lemma AgreesWithLibrary(ps: seq<Prompt>, q: string, cat: string)
    ensures Filtered(ps, q, cat) == PromptLibrary.Filtered(ps, q, cat)
  {
    forall i | 0 <= i < |ps| ensures MatchesFilter(q, cat)(ps[i]) == PromptLibrary.MatchesFilter(q, cat)(ps[i]) {
      EmptyQueryMatches(ps[i]);
    }
    FilterEquiv(ps, MatchesFilter(q, cat), PromptLibrary.MatchesFilter(q, cat));
  }

  /** With no query and no category every prompt is shown. */
  lemma NoFilterShowsAll(ps: seq<Prompt>)
    ensures Filtered(ps, "", "") == ps
  {
    AgreesWithLibrary(ps, "", "");
    PromptLibrary.NoFilterShowsAll(ps);
  }

  // ---------------------------------------------------------------- state

  /** The panel's state: the list, the editor, and the prompt shown in detail. */
  datatype Panel = Panel(prompts: seq<Prompt>, editorOpen: bool, editing: Option<Prompt>, selected: Option<Prompt>)

  /** `handleCreatePrompt`. */
  function CreatePressed(s: Panel): (r: Panel)
    ensures r.prompts == s.prompts && r.selected == s.selected && r.editorOpen && r.editing.None?
  {
    s.(editorOpen := true, editing := None)
  }

  /** `handleEditPrompt`. */
  function EditPressed(s: Panel, p: Prompt): (r: Panel)
    ensures r.prompts == s.prompts && r.selected == s.selected && r.editorOpen && r.editing == Some(p)
  {
    s.(editorOpen := true, editing := Some(p))
  }

  /** `handleSavePrompt`, with `newId` and `now` for the fresh id and instant. */
  function Save(s: Panel, d: Draft, newId: string, now: int): (r: Panel)
    ensures !r.editorOpen && r.editing.None? && r.selected == s.selected
    ensures r.prompts == Saved(s.prompts, s.editing, d, newId, now)
  {
    s.(prompts := Saved(s.prompts, s.editing, d, newId, now), editorOpen := false, editing := None)
  }

  /** Creating or editing and then saving changes the list exactly as it does in the
      library, and leaves the selection alone. */
  lemma SavesLikeLibrary(s: Panel, p: Prompt, d: Draft, newId: string, now: int)
    ensures var l := PromptLibrary.Library(s.prompts, s.editorOpen, s.editing);
            && Save(CreatePressed(s), d, newId, now).prompts == PromptLibrary.Save(PromptLibrary.CreatePressed(l), d, newId, now).prompts
            && Save(EditPressed(s, p), d, newId, now).prompts == PromptLibrary.Save(PromptLibrary.EditPressed(l, p), d, newId, now).prompts
            && Save(CreatePressed(s), d, newId, now).selected == s.selected
            && Save(EditPressed(s, p), d, newId, now).selected == s.selected
  {
  }

  /** `handlePromptSelect`. */
  function Select(s: Panel, p: Prompt): (r: Panel)
    ensures r.selected == Some(p)
    ensures r.prompts == s.prompts && r.editorOpen == s.editorOpen && r.editing == s.editing
  {
    s.(selected := Some(p))
  }

  /** `handleBackToList`. */
  function Back(s: Panel): (r: Panel)
    ensures r.selected.None?
    ensures r.prompts == s.prompts && r.editorOpen == s.editorOpen && r.editing == s.editing
  {
    s.(selected := None)
  }

  /** Going back after selecting restores the list view the selection left. */
  lemma SelectThenBack(s: Panel, p: Prompt)
    requires s.selected.None?
    ensures Back(Select(s, p)) == s
  {
  }

  // ---------------------------------------------------------------- grouping

  const UNCATEGORIZED: string := "Uncategorized"

  /** `prompt.category || "Uncategorized"`. */
  function CategoryKey(p: Prompt): (k: string)
    ensures k != ""
    ensures p.category.Some? && p.category.value != "" ==> k == p.category.value
    ensures p.category.None? || p.category.value == "" ==> k == UNCATEGORIZED
  {
    if p.category.Some? && p.category.value != "" then p.category.value else UNCATEGORIZED
  }

  /** `grouped` and `keys` hold the prompts of `s` by category. */
  ghost predicate GroupedBy(s: seq<Prompt>, grouped: map<string, seq<Prompt>>, keys: seq<string>) {
    && keys == DistinctKeys(s, CategoryKey)
    && (forall k :: k in grouped <==> k in keys)
    && (forall k :: k in grouped ==> grouped[k] == Bucket(s, CategoryKey, k))
  }

  /** One more prompt: once its bucket exists (`g`, `ks`), pushing the prompt onto
      it groups the longer list. */
  lemma GroupedStep(s: seq<Prompt>, x: Prompt, grouped: map<string, seq<Prompt>>, keys: seq<string>,
                    g: map<string, seq<Prompt>>, ks: seq<string>)
    requires GroupedBy(s, grouped, keys)
    requires CategoryKey(x) in grouped ==> g == grouped && ks == keys
    requires CategoryKey(x) !in grouped ==> g == grouped[CategoryKey(x) := []] && ks == keys + [CategoryKey(x)]
    ensures CategoryKey(x) in g
    ensures GroupedBy(s + [x], g[CategoryKey(x) := g[CategoryKey(x)] + [x]], ks)
  {
    var k := CategoryKey(x);
    assert (s + [x])[..|s|] == s;
    var r := g[k := g[k] + [x]];
    if k !in grouped {
      KeyUnseen(s, CategoryKey, k);
    }
    assert g[k] == Bucket(s, CategoryKey, k);
    forall j | j in r ensures r[j] == Bucket(s + [x], CategoryKey, j) {
      BucketSnoc(s, x, CategoryKey, j);
    }
  }

  /** `GroupedStep` at position `i` of the list being grouped. */
  lemma GroupedStepAt(f: seq<Prompt>, i: nat, grouped: map<string, seq<Prompt>>, keys: seq<string>,
                      g: map<string, seq<Prompt>>, ks: seq<string>)
    requires i < |f| && GroupedBy(f[..i], grouped, keys)
    requires CategoryKey(f[i]) in grouped ==> g == grouped && ks == keys
    requires CategoryKey(f[i]) !in grouped ==> g == grouped[CategoryKey(f[i]) := []] && ks == keys + [CategoryKey(f[i])]
    ensures CategoryKey(f[i]) in g
    ensures GroupedBy(f[..i + 1], g[CategoryKey(f[i]) := g[CategoryKey(f[i])] + [f[i]]], ks)
  {
    assert f[..i + 1] == f[..i] + [f[i]];
    GroupedStep(f[..i], f[i], grouped, keys, g, ks);
  }

  /** Some prompt of `s` has a category that names an inherited member. */
  predicate HasInheritedCategory(s: seq<Prompt>)
    decreases |s|
  {
    s != [] && (HasInheritedCategory(s[..|s| - 1]) || Inherited(CategoryKey(s[|s| - 1])))
  }

  lemma {:induction false} HasInheritedCategorySpec(s: seq<Prompt>)
    ensures HasInheritedCategory(s) <==> exists i :: 0 <= i < |s| && Inherited(CategoryKey(s[i]))
    decreases |s|
  {
    if s != [] {
      var p := s[..|s| - 1];
      HasInheritedCategorySpec(p);
      assert forall i :: 0 <= i < |p| ==> p[i] == s[i];
    }
  }

  /** No key of the record so far names an inherited member when no prompt grouped
      so far has such a category. */
  lemma OwnKeyNotInherited(s: seq<Prompt>, keys: seq<string>, k: string)
    requires keys == DistinctKeys(s, CategoryKey) && k in keys
    requires !HasInheritedCategory(s)
    ensures !Inherited(k)
  {
    DistinctKeysSpec(s, CategoryKey);
    HasInheritedCategorySpec(s);
    var n :| 0 <= n < |keys| && keys[n] == k;
  }

  /** `promptsByCategory`: a record from category to its prompts. `keys` is the
      record's key order, the order in which the keys were first written. The record
      starts as `{}`, so a category that names an inherited member (`constructor`,
      `toString`, `__proto__`, ...) finds that member, truthy and not an array, and the
      `push` onto it throws (`threw`); the record is then never returned. */
  method ByCategory(filtered: seq<Prompt>) returns (threw: bool, grouped: map<string, seq<Prompt>>, keys: seq<string>)
    ensures threw == HasInheritedCategory(filtered)
    ensures !threw ==> keys == DistinctKeys(filtered, CategoryKey)
    ensures !threw ==> forall k :: k in grouped <==> k in keys
    ensures !threw ==> forall k :: k in grouped ==> grouped[k] == Bucket(filtered, CategoryKey, k)
  {
    threw, grouped, keys := false, map[], [];
    for i := 0 to |filtered|
      invariant GroupedBy(filtered[..i], grouped, keys)
      invariant !HasInheritedCategory(filtered[..i])
    {
      var prompt := filtered[i];
      var category := CategoryKey(prompt);
      assert filtered[..i + 1][..i] == filtered[..i];
      if category !in grouped && Inherited(category) {
        assert HasInheritedCategory(filtered[..i + 1]);
        InheritedPrefix(filtered, i + 1);
        threw := true;
        return;
      }
      if category in grouped {
        OwnKeyNotInherited(filtered[..i], keys, category);
      }
      ghost var before, keysBefore := grouped, keys;
      if category !in grouped {
        grouped := grouped[category := []];
        keys := keys + [category];
      }
      GroupedStepAt(filtered, i, before, keysBefore, grouped, keys);
      grouped := grouped[category := grouped[category] + [prompt]];
    }
    assert filtered[..|filtered|] == filtered;
  }

  /** A prefix with such a category makes the whole list have one. */
  lemma InheritedPrefix(s: seq<Prompt>, n: nat)
    requires n <= |s| && HasInheritedCategory(s[..n])
    ensures HasInheritedCategory(s)
  {
    HasInheritedCategorySpec(s[..n]);
    HasInheritedCategorySpec(s);
    var i :| 0 <= i < n && Inherited(CategoryKey(s[..n][i]));
    assert s[..n][i] == s[i];
  }

  /** Every filtered prompt lies in exactly one bucket, the one of its key; the
      buckets keep the filtered order and together hold every filtered prompt. */
  lemma BucketsPartition(filtered: seq<Prompt>)
    ensures SumSizes(filtered, CategoryKey, DistinctKeys(filtered, CategoryKey)) == |filtered|
    ensures forall i :: 0 <= i < |filtered| ==> CategoryKey(filtered[i]) in DistinctKeys(filtered, CategoryKey)
    ensures forall k :: k in DistinctKeys(filtered, CategoryKey) ==>
              Bucket(filtered, CategoryKey, k) != [] && IsSubsequence(Bucket(filtered, CategoryKey, k), filtered)
    ensures forall k, p :: p in Bucket(filtered, CategoryKey, k) ==> CategoryKey(p) == k
  {
    GroupingConserves(filtered, CategoryKey);
    DistinctKeysSpec(filtered, CategoryKey);
    forall k | k in DistinctKeys(filtered, CategoryKey)
      ensures Bucket(filtered, CategoryKey, k) != [] && IsSubsequence(Bucket(filtered, CategoryKey, k), filtered)
    {
      BucketOfKey(filtered, CategoryKey, k);
    }
  }
}
