/** The prompt editor's form state (src/components/prompt-editor.tsx): loading a
    prompt into the form, adding and removing tags, the Enter key, and whether the
    form may be submitted. Each handler is a functional update from the old state
    to the new one. */
module PromptEditor {
  import opened Wrappers
  import opened Strings
  import opened Seqs
  import opened Prompts

  /** `formData`: every field is present. */
  datatype Form = Form(
    name: string,
    content: string,
    description: string,
    category: string,
    tags: seq<string>,
    isPublic: bool)

  /** The form together with the text of the tag input. */
  datatype Editor = Editor(form: Form, newTag: string)

  /** The state before any prompt is loaded. */
  function Initial(): (e: Editor)
    ensures e.form.tags == [] && e.newTag == "" && !e.form.isPublic
    ensures e.form.name == "" && e.form.content == "" && e.form.description == "" && e.form.category == ""
  {
    Editor(Form("", "", "", "", [], false), "")
  }

  /** `x || ""` for an optional string. */
  function OrEmpty(x: Option<string>): (r: string)
    ensures x.Some? ==> r == x.value
    ensures x.None? ==> r == ""
  {
    if x.Some? then x.value else ""
  }

  /** The form filled from a prompt. */
  function FormOf(p: Prompt): (f: Form)
    ensures f.name == p.name && f.content == p.content && f.isPublic == p.isPublic
    ensures f.description == OrEmpty(p.description) && f.category == OrEmpty(p.category)
    ensures f.tags == (if p.tags.Some? then p.tags.value else [])
  {
    Form(p.name, p.content, OrEmpty(p.description), OrEmpty(p.category),
         if p.tags.Some? then p.tags.value else [], p.isPublic)
  }

  /** The effect that runs when the `prompt` property changes: a prompt replaces the
      form; no prompt leaves the state alone. The tag input is never touched. */
  function Load(e: Editor, prompt: Option<Prompt>): (r: Editor)
    ensures r.newTag == e.newTag
    ensures prompt.None? ==> r == e
    ensures prompt.Some? ==> r.form == FormOf(prompt.value)
  {
    if prompt.Some? then e.(form := FormOf(prompt.value)) else e
  }

  /** `handleAddTag`: the trimmed input joins the tags when it is not empty and not
      already a tag, and the input is then cleared; otherwise nothing changes. */
  function AddTag(e: Editor): (r: Editor)
    ensures var t := Trim(e.newTag);
            if t != "" && t !in e.form.tags
            then r == e.(form := e.form.(tags := e.form.tags + [t]), newTag := "")
            else r == e
  {
    var t := Trim(e.newTag);
    if t != "" && t !in e.form.tags then
      Editor(e.form.(tags := e.form.tags + [t]), "")
    else e
  }

  /** The tags change exactly when the trimmed input holds a non-blank new tag. */
  lemma AddTagChanges(e: Editor)
    ensures AddTag(e).form.tags != e.form.tags <==> !AllSpace(e.newTag) && Trim(e.newTag) !in e.form.tags
  {
    TrimEmpty(e.newTag);
    var t := Trim(e.newTag);
    if t != "" && t !in e.form.tags {
      assert |AddTag(e).form.tags| == |e.form.tags| + 1;
    }
  }

  /** Adding keeps the old tags, in order, in front; and a duplicate-free tag list
      stays duplicate-free. */
  lemma AddTagKeepsTags(e: Editor)
    ensures |e.form.tags| <= |AddTag(e).form.tags| <= |e.form.tags| + 1
    ensures AddTag(e).form.tags[..|e.form.tags|] == e.form.tags
    ensures Distinct(e.form.tags) ==> Distinct(AddTag(e).form.tags)
  {
    var tags, t := e.form.tags, Trim(e.newTag);
    if t != "" && t !in tags {
      var r := tags + [t];
      assert r[..|tags|] == tags;
      if Distinct(tags) {
        forall i, j | 0 <= i < j < |r| ensures r[i] != r[j] {
          if j == |tags| { assert r[i] == tags[i]; }
        }
      }
    }
  }

  /** The input is cleared by a successful add, so adding again does nothing. */
  lemma AddTagTwice(e: Editor)
    ensures AddTag(AddTag(e)) == AddTag(e)
  {
    TrimAllSpace("");
  }

  function IsNot(tag: string): string -> bool {
    (t: string) => t != tag
  }

  /** `handleRemoveTag`. */
  function RemoveTag(e: Editor, tag: string): Editor {
    e.(form := e.form.(tags := Filter(e.form.tags, IsNot(tag))))
  }

  /** Removing drops every copy of the tag and keeps the other tags in order; the
      rest of the form and the input are unchanged. */
  lemma RemoveTagSpec(e: Editor, tag: string)
    ensures var r := RemoveTag(e, tag);
            && r.newTag == e.newTag
            && r.form == e.form.(tags := r.form.tags)
            && IsSubsequence(r.form.tags, e.form.tags)
            && tag !in r.form.tags
            && (forall t :: t in r.form.tags <==> t in e.form.tags && t != tag)
  {
    FilterIsSubsequence(e.form.tags, IsNot(tag));
    FilterMembers(e.form.tags, IsNot(tag));
  }

  /** Removing the tag that was just added restores the tag list. */
  lemma RemoveUndoesAdd(e: Editor)
    requires Trim(e.newTag) != "" && Trim(e.newTag) !in e.form.tags
    ensures RemoveTag(AddTag(e), Trim(e.newTag)).form.tags == e.form.tags
  {
    var t := Trim(e.newTag);
    FilterAppend(e.form.tags, [t], IsNot(t));
    FilterAll(e.form.tags, IsNot(t));
  }

  /** `handleKeyPress`: Enter adds the tag; every other key leaves the state alone. */
  function KeyPress(e: Editor, key: string): (r: Editor)
    ensures key == "Enter" ==> r == AddTag(e)
    ensures key != "Enter" ==> r == e
  {
    if key == "Enter" then AddTag(e) else e
  }

  /** The submit button is enabled. */
  predicate CanSubmit(f: Form) {
    Trim(f.name) != "" && Trim(f.content) != ""
  }

  /** Submitting is possible exactly when name and content each hold a character that
      is not white space. */
  lemma CanSubmitIff(f: Form)
    ensures CanSubmit(f) <==> !AllSpace(f.name) && !AllSpace(f.content)
  {
    TrimEmpty(f.name);
    TrimEmpty(f.content);
  }

  /** `onSave(formData)`: the form hands over every field. */
  function Submit(f: Form): (d: Draft)
    ensures d.name == f.name && d.content == f.content && d.isPublic == f.isPublic
    ensures d.description == Some(f.description) && d.category == Some(f.category) && d.tags == Some(f.tags)
  {
    Draft(f.name, f.content, Some(f.description), Some(f.category), Some(f.tags), f.isPublic)
  }

  /** Opening a prompt that carries all its optional fields and saving it untouched
      changes only its update time. */
  lemma LoadSaveRoundTrip(e: Editor, p: Prompt, now: int)
    requires p.description.Some? && p.category.Some? && p.tags.Some?
    ensures Overwrite(p, Submit(Load(e, Some(p)).form), now) == p.(updatedAt := now)
  {
  }
}
