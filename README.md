# chat-ai rules toolchain and client derivations, in Dafny

This project models two parts of the chat-ai repository and proves properties of them.

**The rules toolchain** is four Node scripts that keep the editor's rule files in step with the code:

- `analyze-patterns` walks the source trees and matches every line of every TypeScript file against an ordered rule table. It adds a derived "API route without Zod" hit, groups the hits by `category:id`, sorts the groups and renders them as a Markdown rules file.
- `env-providers` parses `.env` and `.env.example`. It finds which AI providers the pattern summary mentions, and renders a table of keys together with set-difference suggestions.
- `merge-rules` concatenates the static `.mdc` rule files and then the generated ones into `rules.mdc`, each group in sorted order and under its own header.
- `rules-guard` decides the exit code of a CI check. It reads a bypass-label list, classifies the changed files against a watch list, and fails when watched paths change without any rule file changing.

**The client-side derivations** are the pure updaters and small loops of five React components:

- the prompt editor's form and tag list;
- the prompt library's filter and its create, edit, delete and save handlers;
- the side panel's filter, save, select and back transitions, and its grouping of prompts by category;
- the sidebar's merge of a refetched thread list, its 40-thread cap and its grouping of threads by day;
- the chat view's flags: `isLoading`, `isPendingToolCall`, `space`, `needSpaceClass`, the new-thread and title-input logic of `onFinish`, and the tool-invocation catcher.

## How the model is built

Each core file is one module:

| module | file |
|---|---|
| `AnalyzePatterns` | `analyze_patterns.dfy` |
| `EnvProviders` | `env_providers.dfy` |
| `MergeRules` | `merge_rules.dfy` |
| `RulesGuard` | `rules_guard.dfy` |
| `PromptEditor` | `prompt_editor.dfy` |
| `PromptLibrary` | `prompt_library.dfy` |
| `PromptSidePanel` | `prompt_side_panel.dfy` |
| `SidebarThreads` | `sidebar_threads.dfy` |
| `ChatBot` | `chat_bot.dfy` |

Shared modules hold what several files use:

- `Prompts` (`prompts.dfy`): the `Prompt`, `PromptCategory` and draft types, and the list updaters both prompt views use.
- `Strings`, `Paths`, `Seqs` (`strings.dfy`): the JavaScript string built-ins, `path.join`/`basename`/`extname`, and filtering.
- `Objects` (`strings.dfy`): a property read on a plain object literal, which falls back to the members every object inherits from `Object.prototype` (`constructor`, `toString`, `__proto__`, ...). The guard's reasons table and the side panel's category record are read this way.
- `Sorting`, `Grouping` (`collections.dfy`): a stable insertion sort on a total preorder, group-by-key in first-appearance order, and deduplication by key.

The form of the model follows the form of the source:

- **Loops become methods.** Where the source loops and pushes (`walk`, `analyzeFile`, `groupHits`, `renderMDC`, `loadEnvFile`, `parseDetectedProviders`, `renderMdc`, the two loops of `merge-rules`' `main`, the guard's decision sequence, `promptsByCategory`, `threadGroupByDate`), the model is a method with a loop. Its `ensures` ties the result to a specification function, and the properties are proved about that function as lemmas.
- **The mutating catcher is a class.** `vercelAISdkV4ToolInvocationIssueCatcher` writes a field of its argument, so it is a method of the class `ChatBot.UIMessage`.
- **Pure updaters are functions** from old state to new state.

What is abstracted:

- The regular expressions of the pattern table (and its Zod test) are a parameter `matches`.
- `localeCompare` is a parameter `collate`, required to be a total preorder.
- Clocks and fresh values are parameters: `ts` for the timestamp, `newId` and `now` for the id and instant of a save, `today` for the day.

Three regular expressions are modelled exactly, because they are simple:

- the `.env` line expression;
- the anchored watch-list expressions of the guard (`RulesGuard.Pattern`);
- the `\bname\b` provider test with the `i` flag (`EnvProviders.Mentions`).

Strings are sequences of characters. The mis-decoded emoji, dash and ellipsis in the literals of `analyze-patterns.cjs` are kept as the characters they decode to (`AnalyzePatterns.ROBOT`, `DASH`, `ELLIPSIS`).

## Model

| member | source | states |
|---|---|---|
| AnalyzePatterns.IsOkFileIff | scripts/analyze-patterns.cjs:92-94 | a directory entry is accepted exactly when its name ends in `.ts` or `.tsx` with something before the extension (`path.extname` of a dot file is empty) |
| AnalyzePatterns.Walk | scripts/analyze-patterns.cjs:96-106 | a missing directory returns `out` unchanged; otherwise the result is `out` followed by the accepted files below the directory, in listing order, depth first |
| AnalyzePatterns.WalkEntry | scripts/analyze-patterns.cjs:99-104 | one entry adds nothing when its name is ignored, the walk of its listing when it is a directory, and its path when it is an accepted file |
| AnalyzePatterns.WalkSkipsIgnored | scripts/analyze-patterns.cjs:100 | an entry whose name is in IGNORE_DIRS contributes nothing, whether it is a directory or a file: the walk is the same with that entry removed |
| AnalyzePatterns.WalkEmitsOkFiles | scripts/analyze-patterns.cjs:101-103 | every emitted path is an accepted file and lies below the walked directory |
| AnalyzePatterns.WalkFilesAppend | scripts/analyze-patterns.cjs:99-104 | the walk of a concatenated listing is the walk of the first part followed by the walk of the second |
| AnalyzePatterns.PatternsDistinct | scripts/analyze-patterns.cjs:22-90 | the rule table has no repeated rule, holds the `next-route` rule once, and has no rule with the derived id `api-without-zod` |
| AnalyzePatterns.MatchLine | scripts/analyze-patterns.cjs:114-124 | the inner loop yields the hits of one line for the rules in table order; a rule without a hint gives hint "" |
| AnalyzePatterns.AnalyzeFile | scripts/analyze-patterns.cjs:108-139 | the result is the per-line hits of the split text, followed by the derived hit when it applies |
| AnalyzePatterns.RuleHitsShape | scripts/analyze-patterns.cjs:114-124 | every hit of one line names that line and a rule that matches it, and the hits come in strictly increasing rule order |
| AnalyzePatterns.LineHitsShape | scripts/analyze-patterns.cjs:112-125 | every per-line hit has 1 <= line <= number of lines and a matching rule of the table; hits are ordered by line, then by rule order |
| AnalyzePatterns.LineHitIff | scripts/analyze-patterns.cjs:112-125 | the hit for line n and rule r is present exactly when r matches line n; no rule suppresses another |
| AnalyzePatterns.LineHitsCount | scripts/analyze-patterns.cjs:112-125 | each (line, rule) hit occurs exactly once when the rule matches that line, and never otherwise |
| AnalyzePatterns.LineHitsOfFile | scripts/analyze-patterns.cjs:110-125 | for the split text of a file and the real table: line bounds, order, and one hit per matching (line, rule) pair |
| AnalyzePatterns.LineHitsPrefix | scripts/analyze-patterns.cjs:112 | the hits of the first n lines are a prefix of the hits of the first k lines, for n <= k |
| AnalyzePatterns.SomeRouteHit | scripts/analyze-patterns.cjs:127 | some hit has match `next-route` exactly when some line matches the route rule |
| AnalyzePatterns.NoForeignHits | scripts/analyze-patterns.cjs:112-125 | no per-line hit carries an id that no rule of the table has |
| AnalyzePatterns.DerivedHitOnce | scripts/analyze-patterns.cjs:127-137 | the `api-without-zod` hit occurs once, and last, when a route line exists and the text has no Zod use; otherwise it does not occur |
| AnalyzePatterns.ApiWithoutZodOnce | scripts/analyze-patterns.cjs:126-138 | the same for a whole file: the hit is added once, as the last hit, at line 1 with category `security`, exactly when a line matches `next-route` and the text does not match the Zod expression |
| AnalyzePatterns.GroupOf | scripts/analyze-patterns.cjs:144-152 | the group of a key carries that key |
| AnalyzePatterns.GroupLePreorder | scripts/analyze-patterns.cjs:154-156 | comparing groups by `collate` on `category + match` is a total preorder when `collate` is one |
| AnalyzePatterns.KeysSnoc | scripts/analyze-patterns.cjs:144-145 | one more hit adds its key to the object's key order exactly when the key is new |
| AnalyzePatterns.GroupSnocOld | scripts/analyze-patterns.cjs:152 | a hit with an existing key appends its reference to that key's group and leaves the other groups unchanged |
| AnalyzePatterns.GroupSnocNew | scripts/analyze-patterns.cjs:145-152 | a hit with a new key creates a group named and hinted after it, holding its single reference |
| AnalyzePatterns.GroupedStep | scripts/analyze-patterns.cjs:143-153 | one turn of the grouping loop keeps the object equal to the groups of the hits read so far |
| AnalyzePatterns.TalliedOrder | scripts/analyze-patterns.cjs:142-153 | the object's keys are the distinct keys of the hits in first-appearance order, so `Object.values` lists the groups in that order |
| AnalyzePatterns.TalliedGroups | scripts/analyze-patterns.cjs:142-153 | after the loop the object maps every key to exactly its group |
| AnalyzePatterns.GroupHits | scripts/analyze-patterns.cjs:141-157 | the result is the groups in first-appearance order, sorted stably by the comparator |
| AnalyzePatterns.SumRefsSort | scripts/analyze-patterns.cjs:154-156 | sorting keeps the total number of references |
| AnalyzePatterns.GroupHitsConserves | scripts/analyze-patterns.cjs:141-157 | the groups hold one reference per hit: the lengths of their `refs` sum to the number of hits |
| AnalyzePatterns.GroupsKeysDistinct | scripts/analyze-patterns.cjs:144-156 | no two groups share a `category:match` key |
| AnalyzePatterns.GroupsSorted | scripts/analyze-patterns.cjs:154-156 | the groups are in ascending comparator order of `category + match` |
| AnalyzePatterns.GroupsMembers | scripts/analyze-patterns.cjs:141-157 | a group is in the result exactly when it is the group of some hit's key |
| AnalyzePatterns.GroupOfHit | scripts/analyze-patterns.cjs:144-152 | a group's refs are exactly the hits with its key, in input order; its category, match and hint are the first such hit's |
| AnalyzePatterns.GroupLines | scripts/analyze-patterns.cjs:178-182 | the lines pushed for one group are its bullet, its first 20 references and, when there are more, the count line |
| AnalyzePatterns.RenderMdc | scripts/analyze-patterns.cjs:159-192 | the output is the header, the placeholder or the sections, and the footer, joined with newlines |
| AnalyzePatterns.SectionsAppend | scripts/analyze-patterns.cjs:173-183 | one turn of the render loop adds the group's heading (if any) and its block to the sections so far |
| AnalyzePatterns.RefLineRoundTrip | scripts/analyze-patterns.cjs:180 | a reference line reads back as its file and line number, whatever characters the path holds |
| AnalyzePatterns.MoreLineRoundTrip | scripts/analyze-patterns.cjs:182 | the "…and N more" line reads back as N |
| AnalyzePatterns.RefAndMoreLinesDiffer | scripts/analyze-patterns.cjs:180-182 | no reference line reads as a count line, and no count line as a reference line |
| AnalyzePatterns.GroupBlockShape | scripts/analyze-patterns.cjs:178-182 | a group prints at most 20 references, in order; the count line appears exactly when it has more than 20, and its N is refs − 20 |
| AnalyzePatterns.NoPatternsIff | scripts/analyze-patterns.cjs:169-171 | "_No notable patterns detected yet._" appears exactly when there are no groups |
| AnalyzePatterns.SectionsLineStarts | scripts/analyze-patterns.cjs:172-183 | every line of the sections starts with a newline, a dash or a space |
| AnalyzePatterns.HeadingsAreSwitches | scripts/analyze-patterns.cjs:174-177 | the `## c` headings are the points where a group's category differs from the category in force |
| AnalyzePatterns.SwitchesOnce | scripts/analyze-patterns.cjs:172-177 | when every switch is to an unseen category, each non-empty category is switched to once if present and never otherwise |
| AnalyzePatterns.HeadingCount | scripts/analyze-patterns.cjs:172-177 | under that condition, each non-empty category gets exactly one heading if some group has it, and none otherwise |
| AnalyzePatterns.HeadingOnce | scripts/analyze-patterns.cjs:172-177 | when each category's groups are contiguous, every non-empty category present gets exactly one heading, and an absent one none |
| AnalyzePatterns.HeadingStep | scripts/analyze-patterns.cjs:174-177 | one more group adds a heading for c exactly when it switches the category in force to c |
| AnalyzePatterns.BlockHasNoHeading | scripts/analyze-patterns.cjs:178-182 | a group's own lines are never headings |
| AnalyzePatterns.FrameLines | scripts/analyze-patterns.cjs:162-191 | the document opens with the front matter and title lines, its last four lines are the guardrail bullets, and the joined text it returns ends with a line break followed by those four bullets joined by line breaks |
| EnvProviders.ProviderNamesDistinct | scripts/env-providers.cjs:10-17 | the six provider names are distinct |
| EnvProviders.KeyOf | scripts/env-providers.cjs:10-17 | a name has a key exactly when it is one of the providers |
| EnvProviders.KeyOfProvider | scripts/env-providers.cjs:10-17 | each provider's lookup gives its own key |
| EnvProviders.MatchEnvLine | scripts/env-providers.cjs:24-26 | a match captures a key made of `A-Z`, digits and `_` |
| EnvProviders.MatchValue | scripts/env-providers.cjs:24 | the captured value holds no line terminator |
| EnvProviders.Unquote | scripts/env-providers.cjs:29-34 | a value quoted with the same quote at both ends loses exactly those two quotes; an unquoted value is unchanged |
| EnvProviders.LoadEnvFile | scripts/env-providers.cjs:19-38 | the loop assigns each matching line in turn; a missing file gives the empty map |
| EnvProviders.KeyPart | scripts/env-providers.cjs:24 | white space, a key, white space and `=` leave the rest of the line to the value part |
| EnvProviders.ValuePart | scripts/env-providers.cjs:24-27 | white space around a value is matched and then trimmed away |
| EnvProviders.EnvLineRoundTrip | scripts/env-providers.cjs:23-35 | a line `KEY = value` with any white space around its parts assigns the unquoted value to the key |
| EnvProviders.EnvLineNeedsEquals | scripts/env-providers.cjs:24-25 | a line without `=` is ignored |
| EnvProviders.EnvLineNeedsKey | scripts/env-providers.cjs:24-25 | a line whose first non-blank character cannot start a key (such as a `#` comment) is ignored |
| EnvProviders.UnquoteQuoted | scripts/env-providers.cjs:29-34 | double or single quotes around a value are removed |
| EnvProviders.AssignedFrom | scripts/env-providers.cjs:35 | every key of the map was assigned its value by one of the lines |
| EnvProviders.AssignedKey | scripts/env-providers.cjs:35 | every key a line assigns is in the map |
| EnvProviders.AssignLastWins | scripts/env-providers.cjs:35 | for a repeated key the last assignment wins |
| EnvProviders.MentionedAlone | scripts/env-providers.cjs:47-48 | a provider name standing alone as a word is found |
| EnvProviders.MentionExamples | scripts/env-providers.cjs:47-48 | the name test ignores case and takes `/` for `-`, and a partial word is not a mention |
| EnvProviders.DetectProviders | scripts/env-providers.cjs:40-51 | the loop finds the providers the summary mentions, in table order; a missing summary gives none |
| EnvProviders.DetectedProviders | scripts/env-providers.cjs:43-49 | the detected providers are distinct table names in table order, and a provider is detected exactly when the summary exists and mentions it |
| EnvProviders.EnabledNamesIff | scripts/env-providers.cjs:80-84 | with distinct names, an entry is enabled exactly when its key has a non-empty value |
| EnvProviders.EnabledIff | scripts/env-providers.cjs:80-84 | a provider is in the enabled set exactly when its key has a non-empty actual value |
| EnvProviders.EnabledProviders | scripts/env-providers.cjs:80-84 | the enabled set holds distinct provider names |
| EnvProviders.StatusRoundTrip | scripts/env-providers.cjs:66-68 | the status text after a key reads back as its two flags |
| EnvProviders.KeyLinesAt | scripts/env-providers.cjs:65-69 | entry i of the keys section is the line of table entry i |
| EnvProviders.KeyLineReadsBack | scripts/env-providers.cjs:64-69 | the section lists the six providers once each, in table order, each showing "set" exactly when the actual value is non-empty and "present" exactly when the example value is |
| EnvProviders.ReferencedSection | scripts/env-providers.cjs:71-78 | "none detected" appears exactly when nothing was detected; otherwise the detected names are listed in ascending default sort order |
| EnvProviders.LinesForMember | scripts/env-providers.cjs:87-100 | a suggestion line is listed exactly when its name is in the looped set and not in the other set |
| EnvProviders.NotSetMember | scripts/env-providers.cjs:87-93 | for names without `*` (every table name), the "not set" line of a name appears exactly when the name is detected but not enabled |
| EnvProviders.UnusedMember | scripts/env-providers.cjs:94-100 | for names without `*` (every table name), the "no code references" line of a name appears exactly when the name is enabled but not detected |
| EnvProviders.NotSetDistinct | scripts/env-providers.cjs:87-93 | for names without `*` (every table name), distinct detected names give distinct "not set" lines |
| EnvProviders.UnusedDistinct | scripts/env-providers.cjs:94-100 | for names without `*` (every table name), distinct enabled names give distinct "unused" lines |
| EnvProviders.SuggestedNotSet | scripts/env-providers.cjs:86-100 | for names without `*` (every table name), each provider in detected \ enabled gets exactly one "not set" suggestion; no other name gets one |
| EnvProviders.SuggestedUnused | scripts/env-providers.cjs:86-100 | for names without `*` (every table name), each provider in enabled \ detected gets exactly one "unused" suggestion; no other name gets one |
| EnvProviders.SuggestionsEmpty | scripts/env-providers.cjs:86-103 | there are no suggestions exactly when the detected and the enabled providers are the same |
| EnvProviders.ConsistentOnlyInSuggestions | scripts/env-providers.cjs:55-102 | no line before the suggestions reads "Looks consistent ✅" |
| EnvProviders.ConsistentIff | scripts/env-providers.cjs:102-104 | "Looks consistent ✅" appears in the page exactly when both set differences are empty |
| EnvProviders.ProviderNotSet | scripts/env-providers.cjs:80-93 | in a run, a provider gets one "not set" line when the summary mentions it and its key is not set, and none otherwise |
| EnvProviders.ProviderUnused | scripts/env-providers.cjs:80-100 | in a run, a provider gets one "unused" line when its key is set and the summary does not mention it, and none otherwise |
| EnvProviders.ListKeys | scripts/env-providers.cjs:64-69 | the loop over the table yields the keys section |
| EnvProviders.ListReferenced | scripts/env-providers.cjs:71-78 | the note, or the loop over the sorted names, yields the referenced section |
| EnvProviders.SuggestNotSet | scripts/env-providers.cjs:87-93 | the loop over the detected providers yields the "not set" lines |
| EnvProviders.SuggestUnused | scripts/env-providers.cjs:94-100 | the loop over the enabled providers yields the "unused" lines |
| EnvProviders.RenderProviders | scripts/env-providers.cjs:53-107 | the page is its header, keys, referenced and suggestions sections, joined with newlines |
| MergeRules.ListMdcSpec | scripts/merge-rules.cjs:17-24 | a missing directory lists nothing; otherwise the result is the paths of exactly the directory's `.mdc` entries, sorted |
| MergeRules.StaticFilesSpec | scripts/merge-rules.cjs:35-38 | the static files are the listed files that pass the filter, still sorted |
| MergeRules.StaticSkipsRulesMdc | scripts/merge-rules.cjs:37 | no entry whose name includes `rules.mdc` is merged as a static file; this covers the output itself, and also names such as `team-rules.mdc` |
| MergeRules.NoAutoSegment | scripts/merge-rules.cjs:37 | an entry of the rules directory never has `/auto/` in its path |
| MergeRules.StaticFilesPlain | scripts/merge-rules.cjs:35-38 | so the static files are the listed ones whose path does not include `rules.mdc` |
| MergeRules.StaticAutoDisjoint | scripts/merge-rules.cjs:35-39 | no file is merged both as a static and as a generated rule |
| MergeRules.SectionHeaderRoundTrip | scripts/merge-rules.cjs:26-28 | a section header reads back as its title |
| MergeRules.SectionHeaderParsed | scripts/merge-rules.cjs:26-28 | only a section header reads as one: a header is exactly `\n\n<!-- ===== title ===== -->\n` |
| MergeRules.FileSectionOf | scripts/merge-rules.cjs:49-50 | a listed file adds the marker naming its entry, its trimmed text (nothing when the file is gone), and a line feed |
| MergeRules.SectionsAppend | scripts/merge-rules.cjs:48-51 | the sections of concatenated file lists are concatenated |
| MergeRules.DocumentOpens | scripts/merge-rules.cjs:41-47 | the output starts with the banner and the title, then the introduction and the static header |
| MergeRules.DocumentStaticPart | scripts/merge-rules.cjs:47-53 | each static file's section follows the earlier static files' and precedes the later ones and the generated-rules header |
| MergeRules.DocumentAutoPart | scripts/merge-rules.cjs:53-57 | each generated file's section follows the generated-rules header and the earlier generated files' sections |
| MergeRules.AppendSections | scripts/merge-rules.cjs:48-51 | one loop appends the sections of its files to the text so far |
| MergeRules.Merge | scripts/merge-rules.cjs:30-63 | without a rules directory the run fails with code 1 and writes nothing; otherwise it writes the merged text to `.cursor/rules/rules.mdc` and reports both counts |
| RulesGuard.TrimAll | scripts/rules-guard.cjs:10 | each piece is trimmed, in place |
| RulesGuard.LabelsOfPieces | scripts/rules-guard.cjs:9-11 | trimmed comma-free pieces, once the empty ones are dropped, are labels |
| RulesGuard.BypassSpec | scripts/rules-guard.cjs:8-11 | the bypass list is an order-preserving sublist of the trimmed comma pieces, and each of its entries is non-empty, comma-free and trimmed |
| RulesGuard.BypassRoundTrip | scripts/rules-guard.cjs:8-11 | labels joined with commas parse back to the same list |
| RulesGuard.SomeTestExists | scripts/rules-guard.cjs:54 | `watched.some` holds exactly when some pattern matches |
| RulesGuard.LiteralPattern | scripts/rules-guard.cjs:20-33 | a pattern of literal characters matches exactly the paths starting with them, or, when anchored at the end, exactly that path |
| RulesGuard.DotRulesWatched | scripts/rules-guard.cjs:31 | the unescaped `.` of `^.cursor/rules/` matches any character but a line terminator |
| RulesGuard.RuleFileWatched | scripts/rules-guard.cjs:31-35 | every rule file is itself a watched path |
| RulesGuard.LooseRulesDot | scripts/rules-guard.cjs:31-35 | a path that merely resembles a rule file is watched but is not a rule file |
| RulesGuard.LoosePackageDot | scripts/rules-guard.cjs:32 | the unescaped `.` of `^package.json$` matches any character |
| RulesGuard.ChangedFilesSpec | scripts/rules-guard.cjs:48 | the changed files are lines of the diff output in order, each non-empty and free of line feeds |
| RulesGuard.ChangedFilesRoundTrip | scripts/rules-guard.cjs:48 | non-empty paths printed one per line read back as the same list |
| RulesGuard.TouchedSpec | scripts/rules-guard.cjs:53-56 | the touched lists are order-preserving sublists holding exactly the changed files of their kind |
| RulesGuard.ExitOneIff | scripts/rules-guard.cjs:58-85 | the guard exits 1 exactly when there is no bypass label, some changed file is watched and none is a rule file |
| RulesGuard.RulesOnlyPasses | scripts/rules-guard.cjs:31-35 | a non-empty change set of rule files only is watched throughout, yet passes |
| RulesGuard.ReasonLinesSpec | scripts/rules-guard.cjs:65-69 | one reason line is printed per label whose lookup in the reasons object is truthy, in order |
| RulesGuard.ReasonCases | scripts/rules-guard.cjs:66-67 | a label has a reason line exactly when it is a key of the table or the name of an inherited `Object.prototype` member; a key prints its own text, an inherited name the member as a template literal shows it, and any other label prints nothing |
| RulesGuard.InheritedReasons | scripts/rules-guard.cjs:66-67 | the labels `constructor` and `__proto__`, not keys of the table, print `function Object() { [native code] }` and `[object Object]` |
| Objects.Get | scripts/rules-guard.cjs:66 | a property read on an object literal finds an own key's value first, else an inherited member, else nothing |
| RulesGuard.BulletJoin | scripts/rules-guard.cjs:77 | joining with a bullet after every line break is joining the bulleted lines |
| RulesGuard.JoinBullets | scripts/rules-guard.cjs:77 | the heading before the bulleted join is the first line of the lines it makes |
| RulesGuard.DriftListReadsBack | scripts/rules-guard.cjs:77 | the failure message lists exactly the touched watched files, one per bullet line, in order, below its heading |
| RulesGuard.PrintReasons | scripts/rules-guard.cjs:65-69 | the `forEach` loop, looking each label up in the reasons object, prints the reason lines |
| RulesGuard.Run | scripts/rules-guard.cjs:58-85 | the decision sequence returns the decided exit code and the printed lines |
| RulesGuard.Guard | scripts/rules-guard.cjs:8-85 | the script's code and output; a failing `git diff` exits 1 with no line printed, whatever the labels; when the diff succeeds, `rules-ok` exits 0 with the single bypass line, and any non-empty bypass list exits 0 |
| PromptEditor.Initial | src/components/prompt-editor.tsx:30-38 | the form starts empty, with no tags, not public, and an empty tag input |
| PromptEditor.FormOf | src/components/prompt-editor.tsx:42-49 | name, content and isPublic are copied; a missing description or category becomes "", missing tags become [] |
| PromptEditor.Load | src/components/prompt-editor.tsx:40-51 | a prompt replaces the form, no prompt leaves the state alone, and the tag input is untouched |
| PromptEditor.AddTag | src/components/prompt-editor.tsx:58-66 | the trimmed input is appended and the input cleared when it is non-empty and not yet a tag; otherwise nothing changes |
| PromptEditor.AddTagChanges | src/components/prompt-editor.tsx:59 | the tags change exactly when the input holds a non-space character and its trimmed text is not a tag yet |
| PromptEditor.AddTagKeepsTags | src/components/prompt-editor.tsx:59-63 | adding keeps the old tags in order in front and grows the list by at most one; a duplicate-free list stays duplicate-free |
| PromptEditor.AddTagTwice | src/components/prompt-editor.tsx:58-66 | adding twice is adding once |
| PromptEditor.RemoveTagSpec | src/components/prompt-editor.tsx:68-73 | removing drops every copy of the tag, keeps the other tags in order, and changes nothing else |
| PromptEditor.RemoveUndoesAdd | src/components/prompt-editor.tsx:58-73 | removing the tag just added restores the tag list |
| PromptEditor.KeyPress | src/components/prompt-editor.tsx:75-80 | Enter behaves exactly like the add handler; every other key changes nothing |
| PromptEditor.CanSubmitIff | src/components/prompt-editor.tsx:232 | submitting is enabled exactly when name and content each hold a character that is not white space |
| PromptEditor.Submit | src/components/prompt-editor.tsx:53-56 | the save hands over every field of the form |
| PromptEditor.LoadSaveRoundTrip | src/components/prompt-editor.tsx:40-56 | opening a prompt that has all its optional fields and saving it untouched changes only its update time |
| PromptLibrary.FilteredSpec | src/components/prompt-library.tsx:91-102 | the filter keeps, in order and with their multiplicity, exactly the prompts whose name, description or content holds the lower-cased query (any prompt when it is empty) and whose category is the selected one (any when none is) |
| PromptLibrary.NoFilterShowsAll | src/components/prompt-library.tsx:91-102 | with no query and no category every prompt is shown |
| PromptLibrary.UncategorizedNeedsNoCategory | src/components/prompt-library.tsx:98-99 | a prompt without a category is shown only while no category is selected |
| PromptLibrary.CreatePressed | src/components/prompt-library.tsx:104-107 | the editor opens on a new prompt; the list is unchanged |
| PromptLibrary.EditPressed | src/components/prompt-library.tsx:109-112 | the editor opens on the given prompt; the list is unchanged |
| PromptLibrary.Delete | src/components/prompt-library.tsx:114-116 | every prompt with the id is removed, the others stay in order and as often as they were there, and the editor state is untouched |
| PromptLibrary.Save | src/components/prompt-library.tsx:118-150 | the list becomes the saved list, and the editor is closed and cleared |
| PromptLibrary.EditThenSave | src/components/prompt-library.tsx:125-133 | saving an edit overwrites the entries with the edited id from the form, keeping id, owner, creation time and usage count, and changes neither the list's length nor any other entry |
| PromptLibrary.CreateThenSave | src/components/prompt-library.tsx:135-144 | saving a new prompt puts one unused prompt with the fresh id in front of the unchanged list |
| PromptSidePanel.FilteredSpec | src/components/prompt-library-side-panel.tsx:120-130 | the filter keeps, in order and with their multiplicity, exactly the prompts that pass the text and category tests |
| PromptSidePanel.AgreesWithLibrary | src/components/prompt-library-side-panel.tsx:121-128 | without the library's short-circuit the panel still shows what the library shows, since the empty query occurs in every name |
| PromptSidePanel.NoFilterShowsAll | src/components/prompt-library-side-panel.tsx:120-130 | with no query and no category every prompt is shown |
| PromptSidePanel.CreatePressed | src/components/prompt-library-side-panel.tsx:132-135 | the editor opens on a new prompt; list and selection are unchanged |
| PromptSidePanel.EditPressed | src/components/prompt-library-side-panel.tsx:137-140 | the editor opens on the given prompt; list and selection are unchanged |
| PromptSidePanel.Save | src/components/prompt-library-side-panel.tsx:142-174 | the list becomes the saved list, and the editor is closed and cleared; the selection stays |
| PromptSidePanel.SavesLikeLibrary | src/components/prompt-library-side-panel.tsx:142-174 | creating or editing and then saving changes the list exactly as the library does, and keeps the selection |
| PromptSidePanel.Select | src/components/prompt-library-side-panel.tsx:194-196 | the selection becomes the prompt; nothing else changes |
| PromptSidePanel.Back | src/components/prompt-library-side-panel.tsx:198-200 | the selection is cleared; nothing else changes |
| PromptSidePanel.SelectThenBack | src/components/prompt-library-side-panel.tsx:194-200 | going back after selecting restores the state before the selection |
| PromptSidePanel.CategoryKey | src/components/prompt-library-side-panel.tsx:206 | the key is the category when it is present and non-empty, and "Uncategorized" otherwise |
| PromptSidePanel.GroupedStep | src/components/prompt-library-side-panel.tsx:205-211 | one turn of the `forEach`, creating the bucket if needed and pushing, keeps the record equal to the buckets of the prompts read |
| PromptSidePanel.ByCategory | src/components/prompt-library-side-panel.tsx:203-213 | the grouping throws exactly when some filtered prompt's category names an inherited `Object.prototype` member; otherwise the record's keys are the distinct category keys in first-appearance order, and each maps to the prompts with that key in filtered order |
| PromptSidePanel.HasInheritedCategorySpec | src/components/prompt-library-side-panel.tsx:206-209 | the grouping's failure condition holds exactly when some prompt's category key is an inherited member's name |
| PromptSidePanel.BucketsPartition | src/components/prompt-library-side-panel.tsx:204-212 | every filtered prompt lies in exactly the bucket of its key; buckets are non-empty, keep the filtered order, and their sizes add up to the filtered length |
| Prompts.Spread | src/components/prompt-library.tsx:130 | a key the draft carries overrides the prompt's, and a missing one keeps it |
| Prompts.DeleteSpec | src/components/prompt-library.tsx:115 | delete keeps, in order and with their multiplicity, exactly the prompts with another id |
| Prompts.DeleteMissing | src/components/prompt-library.tsx:115 | deleting an id no prompt has changes nothing |
| Prompts.DeleteIdempotent | src/components/prompt-library.tsx:115 | deleting twice is deleting once |
| Prompts.Overwrite | src/components/prompt-library.tsx:130 | the overwritten prompt keeps its id, owner, creation time and usage count, takes the draft's fields, and is updated now |
| Prompts.UpdateById | src/components/prompt-library.tsx:127-133 | the entries with the id are overwritten, the others kept, and the length unchanged |
| Prompts.UpdateKeepsIds | src/components/prompt-library.tsx:127-133 | an update keeps every prompt's id |
| Prompts.UpdateMissing | src/components/prompt-library.tsx:127-133 | updating an id no prompt has changes nothing |
| Prompts.UpdateIdempotent | src/components/prompt-library.tsx:127-133 | saving the same draft twice at the same instant is saving it once |
| Prompts.Create | src/components/prompt-library.tsx:136-143 | a new prompt gets the fresh id, the default owner, usage count 0 and both dates set to now, and the draft's fields |
| Prompts.Saved | src/components/prompt-library.tsx:125-145 | an edit overwrites the entries with the edited id; a create prepends the new prompt in front of the unchanged list |
| Prompts.EmptyQueryMatches | src/components/prompt-library-side-panel.tsx:122-125 | the empty query occurs in every prompt |
| Prompts.SearchIgnoresCase | src/components/prompt-library.tsx:94-96 | the search does not see the case of the query |
| Prompts.TextMatchesAt | src/components/prompt-library.tsx:94-96 | a query matches exactly when its lower-cased text occurs at some position of the lower-cased name, description or content |
| SidebarThreads.FirstWithId | src/components/layouts/app-sidebar-threads.tsx:74-78 | the lookup gives the first thread with the id, or none when no thread has it |
| SidebarThreads.Generating | src/components/layouts/app-sidebar-threads.tsx:76-80 | each generating thread is the first held thread with one of the generating ids; missing ids are dropped |
| SidebarThreads.BackFill | src/components/layouts/app-sidebar-threads.tsx:86-95 | a fetched thread without a title takes the held title of its id; a thread with a title is unchanged |
| SidebarThreads.Merged | src/components/layouts/app-sidebar-threads.tsx:72-98 | the stored list is the deduplicated generating-then-fetched list, with titles filled in |
| SidebarThreads.MergedKeys | src/components/layouts/app-sidebar-threads.tsx:81-84 | the merged ids are the distinct ids of the generating threads followed by the fetched ones, in first-appearance order |
| SidebarThreads.MergedIdsDistinct | src/components/layouts/app-sidebar-threads.tsx:81-84 | the merged list holds each id once |
| SidebarThreads.MergedHasFetched | src/components/layouts/app-sidebar-threads.tsx:81-84 | every fetched thread's id is in the merged list |
| SidebarThreads.MergedGeneratingFirst | src/components/layouts/app-sidebar-threads.tsx:81-84 | the generating threads' ids come first, in their order |
| SidebarThreads.MergedKeepsFirst | src/components/layouts/app-sidebar-threads.tsx:81-95 | up to its title, each merged thread is the first with its id among the generating and then the fetched threads |
| SidebarThreads.Display | src/components/layouts/app-sidebar-threads.tsx:132-140 | the shown list is a prefix of the list: 40 threads when collapsed with 40 or more, all of them otherwise; a collapsed list never shows more than 40 |
| SidebarThreads.Rank | src/components/layouts/app-sidebar-threads.tsx:156-161 | each period has its place among the four groups |
| SidebarThreads.PeriodOf | src/components/layouts/app-sidebar-threads.tsx:170-177 | today is the same day, yesterday the day before, last week any other day at most 7 days back (or later), older the rest |
| SidebarThreads.FutureIsLastWeek | src/components/layouts/app-sidebar-threads.tsx:174 | a day after today falls in the last-week group |
| SidebarThreads.PeriodStep | src/components/layouts/app-sidebar-threads.tsx:163-179 | one more thread joins the group of its period and no other |
| SidebarThreads.PushFour | src/components/layouts/app-sidebar-threads.tsx:171-177 | a push onto group b extends that group only |
| SidebarThreads.GroupsStep | src/components/layouts/app-sidebar-threads.tsx:163-179 | one turn of the `forEach` pushes the thread onto the group of its period |
| SidebarThreads.GroupByDate | src/components/layouts/app-sidebar-threads.tsx:142-183 | the loop fills the four groups in display order and drops the empty ones |
| SidebarThreads.SizeDropsEmpty | src/components/layouts/app-sidebar-threads.tsx:182 | dropping the empty groups loses no thread |
| SidebarThreads.DateGroupsConserve | src/components/layouts/app-sidebar-threads.tsx:163-182 | the group sizes add up to the number of shown threads: each lands in exactly one group |
| SidebarThreads.DateGroupsOrdered | src/components/layouts/app-sidebar-threads.tsx:156-161 | groups appear in the order today, yesterday, last week, older, each at most once |
| SidebarThreads.DateGroupsSublists | src/components/layouts/app-sidebar-threads.tsx:163-182 | every group is non-empty, keeps the display order, and holds exactly the shown threads of its period, dated by last message or else creation |
| SidebarThreads.DateGroupsPlace | src/components/layouts/app-sidebar-threads.tsx:163-179 | every shown thread is in the group of its period |
| ChatBot.Last | src/components/chat-bot.tsx:236 | `at(-1)` is the last element, or none for an empty list |
| ChatBot.IsPendingToolCall | src/components/chat-bot.tsx:234-243 | true exactly when the status is ready, the last message is the assistant's, and its last part is a tool invocation without a result |
| ChatBot.LoadingIsNotPending | src/components/chat-bot.tsx:202-243 | while streaming or submitted, no tool call is pending |
| ChatBot.SpacerOf | src/components/chat-bot.tsx:266-274 | no spacer unless loading; "think" after a user message; after a step start, "think" if it is the only part and "space" otherwise; none otherwise |
| ChatBot.NeedSpaceClass | src/components/chat-bot.tsx:219-229 | true exactly for the last message, when there is no error, the view is not at its initial entry, and the message is neither the user's nor ends in a step start |
| ChatBot.SpacerExcludesSpaceClass | src/components/chat-bot.tsx:219-274 | while a spacer shows, no message asks for the space class |
| ChatBot.Truncate | src/components/chat-bot.tsx:167 | the cut text is a prefix of at most the limit, and short text is unchanged |
| ChatBot.Lines | src/components/chat-bot.tsx:164-167 | one title line per text part: the role, a colon and the cut text |
| ChatBot.TitleInputWhen | src/components/chat-bot.tsx:157-171 | a title is asked for exactly when the thread has no title, has fewer than three user or assistant messages, and one of its first two messages has a text part |
| ChatBot.TitledThreadKeepsTitle | src/components/chat-bot.tsx:154-158 | a thread that already has a title never asks for one |
| ChatBot.TitleIgnoresLater | src/components/chat-bot.tsx:162-163 | messages after the first two do not change the title lines |
| ChatBot.FlatLinesShape | src/components/chat-bot.tsx:162-168 | every title line is the role and the cut text of a text part of one of the messages |
| ChatBot.TitlePartsShape | src/components/chat-bot.tsx:162-168 | every title line comes from one of the first two messages and is at most 511 characters long |
| ChatBot.FixedInvocations | src/components/chat-bot.tsx:525-531 | the catcher changes the invocations exactly when the message is the assistant's, its last part is a tool invocation and it lists none, and then sets exactly that one invocation |
| ChatBot.UIMessage.CatchToolInvocationIssue | src/components/chat-bot.tsx:525-531 | the method writes the fixed invocations into the message object |
| ChatBot.FixIdempotent | src/components/chat-bot.tsx:525-531 | applying the fix twice is applying it once |
| Strings.TrimEmpty | scripts/env-providers.cjs:27 | trimming leaves nothing exactly when the text is all white space |
| Strings.TrimPadded | scripts/env-providers.cjs:27 | trimming removes exactly the white space around a value with none at its ends |
| Strings.TrimIdempotent | src/components/prompt-editor.tsx:59 | trimming twice is trimming once |
| Strings.SplitJoin | scripts/rules-guard.cjs:48 | joining the pieces of a split with the separator gives the string back, and no piece holds the separator |
| Strings.NatToStringRoundTrip | scripts/analyze-patterns.cjs:180 | a line number's decimal text reads back as the number |
| Strings.LexLeIsUnitOrder | scripts/env-providers.cjs:75 | the default string order is lexicographic order on the strings' UTF-16 code units |
| Strings.SurrogatesSortFirst | scripts/merge-rules.cjs:23 | a character above U+FFFF sorts before U+FF01, by its high surrogate |
| Sorting.SortBySorted | scripts/analyze-patterns.cjs:154-156 | under a total preorder the sort's result is in order |
| Sorting.SortBy | scripts/analyze-patterns.cjs:154-156 | the sorted list has the same length and the same elements, counted with multiplicity, as its input |
| Sorting.InsertSorted | scripts/analyze-patterns.cjs:154-156 | inserting into an ordered list keeps it ordered |
| Sorting.SortByStable | scripts/analyze-patterns.cjs:154-156 | the sort is stable: the elements the comparator ranks equal to any given one keep their input order |
| Grouping.DistinctKeysSpec | scripts/analyze-patterns.cjs:142-153 | the distinct keys are pairwise different, and they are exactly the keys of the elements |
| Grouping.GroupingConserves | src/components/prompt-library-side-panel.tsx:204-212 | the buckets of the distinct keys hold all the elements |
| Grouping.BucketSpec | src/components/prompt-library-side-panel.tsx:206-210 | a bucket is the order-preserving sublist of the elements with its key |
| Grouping.DedupKeys | src/components/layouts/app-sidebar-threads.tsx:81-84 | the survivors of deduplication carry the distinct keys once each, in first-appearance order |
| Grouping.DedupFirst | src/components/layouts/app-sidebar-threads.tsx:81-84 | each survivor is the first element with its key |

## Left out

- The file system (`existsSync`, `readdirSync`, `readFileSync`, `writeFileSync`, `mkdirSync`) is left out. Directory listings and file texts are inputs (`AnalyzePatterns.Entry`, `MergeRules.Fs`, an optional file text), and what a script writes is its returned string.
- The `main` functions of `analyze-patterns.cjs` and `env-providers.cjs` are left out. They only chain the modelled operations through the files they read and write, at scripts/analyze-patterns.cjs:194-206 and scripts/env-providers.cjs:109-120.
- The git calls of `changedFiles` and its `origin/main` to `HEAD~1` fallback are left out: the diff output is an input of `RulesGuard.Guard`, `None` when `git diff` fails. That failure is modelled as its outcome, exit 1 before the labels are read; the thrown error's stack trace on standard error is not modelled.
- Console output is modelled as returned lines, and `process.exit` as a returned code. The two arguments of a `console.log` are printed joined by a space.
- The timestamps (`new Date().toISOString()`) are the parameter `ts`. The id and instants of a save (`Date.now().toString()`, `new Date()`) are the parameters `newId` and `now`. A created prompt takes the one instant `now` for both `createdAt` and `updatedAt`, where the source calls `new Date()` twice and the two can differ by a millisecond.
- The regular expressions of the pattern table and the Zod test are the parameter `matches`. The model fixes only which rule is the Zod rule and which the route rule, and that the whole-file Zod test uses the Zod rule's expression.
- `localeCompare` is the parameter `collate`, of which only the total-preorder property is assumed. The default `sort()` is modelled exactly, as UTF-16 code-unit order: a character above U+FFFF ranks by its high surrogate, so it sorts before U+E000 to U+FFFF.
- Characters are modelled as code points, not UTF-16 code units. Text outside the Basic Multilingual Plane would split differently in JavaScript.
- `toLowerCase` is modelled for ASCII letters only. The `i`-flag test of provider names is modelled, without the `u` flag, as ASCII case folding.
- `path.join` is modelled as joining with `/` without normalising `..`, `.` or doubled separators. Entry names never hold a separator.
- `groupBy`, `deduplicateByKey` and `truncateString` from `lib/utils` are not part of this model. They are taken to group in order, to keep the first element of each key, and to cut text after n characters without a suffix.
- `ChatBot.Truncate`: takes `truncateString` as a plain cut, because its source is not available.
- Real dates and time zones are left out. A thread's dates are day numbers, the local midnight of the instant counted in days, and `today` is a parameter. A `Date` object is always truthy, so the `|| new Date()` fallback at app-sidebar-threads.tsx:167 never applies. A timestamp that does not parse gives an invalid date, whose comparisons are all false, so such a thread lands in the older group; the model has no invalid day number and does not capture that.
- `scripts/watch-patterns.cjs` (timer polling, debounce and process spawning) is not part of this model.
- React rendering, hooks, SWR fetching, the store, toasts, navigation, the clipboard and the AI SDK streaming are left out. Only the derived values and state updates are modelled.
- `PromptSidePanel.ByCategory`: returns the record's key order as a list of first appearances, and on a throw only the flag; the thrown `TypeError` and what React does with it are not modelled. A JavaScript object lists integer-like keys (a category named "2", say) first, and the model does not capture that.
- `AnalyzePatterns.GroupHits`: `Object.values(grouped)` is taken in insertion order. That holds because every key contains a `:` and so is never an integer index.
- `AnalyzePatterns.Walk`: a directory entry named like an accepted file is descended into and never emitted, as in the source. Entries that are neither files nor directories (`OtherEntry`) are skipped.
- `MergeRules.AppendSections`: a listed `.mdc` entry that is a directory reads as missing and contributes an empty body. The source would fail reading it.
