# Citation-structure fetcher of hucit_kb, modelled in Dafny

`knowledge_base/populate.py` fetches the citation structure of a classical
work from a CTS (Canonical Text Services) endpoint. Given a work URN it picks
the first edition whose URN contains "grc" (for a work whose URN contains
"greekLit") or "lat" (for all others); in the "latinLit" namespace every
edition URN contains "lat", so there that is simply the first edition. It
then lists the citation levels of that edition (numbered from 1, labels
lower-cased) and, for every level, records one element per valid reference: its `current` URN, its
`parent` when the reference is dotted, and the `previous` / `following` URNs
from the service's navigation ids. `download_text_structure` writes that
record, or `None`, to `<basedir>/<urn with ':' replaced by '-'>.json`.

The model:

- `wrappers.dfy` — `Option`, standing for Python's `None`.
- `strings.dfy` (module `Strings`) — the string operations the code uses:
  the `in` test on strings, `str.split` / `str.join` on one separator
  character, list slicing `xs[:k]`, ASCII `str.lower`, `str.replace` of one
  character, and `os.path.join` of two POSIX components, each with its
  characterisation (split/join round trips in both directions, the
  substring scan against "occurs at some index").
- `populate.dfy` (module `Populate`) — the data model (`Edition`, `Nav`,
  `Service`, `Element` as the element dict, `TextStructure`), the functional
  description of the result (`TextStructureOf`), the imperative
  `FetchTextStructure` with the source's loop over levels and `ListLevel`
  with its inner loop over references, proved to return exactly
  `TextStructureOf`, the download path and `DownloadTextStructure`.

The remote resolver is replaced by `Service`: the work's editions in
iteration order, a function from level number to the reference strings the
service lists for it, and a function from reference to its navigation ids.
URNs are opaque strings; nothing parses them.

The `previous` field is filled from the service's `nextId` and `following`
from its `prevId`, exactly as the code does (`ElementFor` states this
crossed mapping); the model keeps it as written.

The parent keeps the first `level_n - 1` dot-separated components of the
reference (`ParentRef`, `ParentParts`). That is all but the last component only when the
reference has exactly `level_n` components (`ParentAtDepth`). A dotted
reference listed at level 1 gets `urn + ":"` as its parent (`LevelOneParent`), and a
reference listed at a level deeper than its own depth is its own parent
(`ParentOfShallowRef`).

## Model

| member | source | states |
|---|---|---|
| `Strings.IsSubstring` | knowledge_base/populate.py:53 | Python's `in` on strings, as a left-to-right scan, holds exactly when the needle occurs at some index |
| `Populate.LanguageSuffix` | knowledge_base/populate.py:53 | the suffix is "grc" exactly when "greekLit" occurs in the URN, and "lat" exactly when it does not |
| `Populate.Matches` | knowledge_base/populate.py:62 | an edition passes the filter exactly when the suffix occurs somewhere in its URN |
| `Populate.FirstMatch` | knowledge_base/populate.py:58-63 | the chosen edition is the first child, in iteration order, whose URN contains the suffix; there is none exactly when no child matches |
| `Populate.LatinNamespaceFirstChild` | knowledge_base/populate.py:53-63 | when the first child's URN contains "latinLit", the search for "lat" chooses that first child, whatever its language |
| `Populate.TextStructureOf` | knowledge_base/populate.py:46-66 | the result is None exactly when no edition matches (no partial structure); otherwise its urn and provenance are the input URN and endpoint unchanged |
| `Populate.Levels` | knowledge_base/populate.py:71-74 | the level list has one entry per citation level; entry i is numbered i+1 and its label has the length of name i |
| `Populate.LevelsNumbered` | knowledge_base/populate.py:71-74 | the level list has one entry per citation level, entry i is (i+1, lower-cased name i), numbers ascend and are exactly 1..n |
| `Populate.ValidReffs` | knowledge_base/populate.py:78-100 | "valid_reffs", built level by level with later assignments overwriting earlier ones, has an entry for exactly the level numbers of the level list |
| `Populate.ReffsAt` | knowledge_base/populate.py:80-100 | a level's list holds exactly one element per reference the service lists for it |
| `Populate.ValidReffsAt` | knowledge_base/populate.py:78-100 | the entry of a level is the list of that level's elements, when no later level reuses its number |
| `Populate.ReffsOfLevel` | knowledge_base/populate.py:71-100 | for a scheme of n levels, valid_reffs[l] exists exactly for l in 1..n and is the list of level l's elements |
| `Populate.FetchedStructure` | knowledge_base/populate.py:71-100 | a fetched structure lists the levels of the first matching edition; valid_reffs[l] exists exactly for l in 1..n, with one element per listed reference, in order, each built from that reference and its navigation ids |
| `Populate.Qualify` | knowledge_base/populate.py:84 | "{urn}:{ref}" is the URN, one ':', then the reference |
| `Populate.ElementFor` | knowledge_base/populate.py:83-99 | current is always urn:ref; parent is present exactly when ref contains '.', and is urn: plus the first level_n - 1 parts; previous is present exactly when nextId is, following exactly when prevId is (crossed); no other key |
| `Populate.BuildElement` | knowledge_base/populate.py:83-99 | adding the optional keys one at a time yields exactly the element `ElementFor` describes |
| `Populate.ParentRef` | knowledge_base/populate.py:86-90 | the parent's reference part is a prefix of the reference for every level number, and empty at level 1 |
| `Populate.ParentParts` | knowledge_base/populate.py:89 | at level_n >= 2 the parent's dot-separated parts are exactly the first level_n - 1 parts of the reference (all of them when it has fewer) |
| `Populate.ParentOfShallowRef` | knowledge_base/populate.py:86-90 | a reference with at most level_n - 1 parts, listed at level level_n, is its own parent |
| `Populate.ParentAtDepth` | knowledge_base/populate.py:86-90 | for a reference with level_n >= 2 parts, the parent is all parts but the last: its own parts are those parts, and parent, '.', last part spell the reference |
| `Populate.LevelOneParent` | knowledge_base/populate.py:86-90 | a dotted reference at level 1 gets parent urn + ":" |
| `Strings.Split` | knowledge_base/populate.py:89 | `str.split` on one character gives at least one part, and no part contains the separator |
| `Strings.SplitCount` | knowledge_base/populate.py:89 | the split has exactly one more part than the string has separators |
| `Strings.Join` | knowledge_base/populate.py:89 | joining no parts gives the empty string; otherwise the joined string starts with the first part |
| `Strings.JoinSplit` | knowledge_base/populate.py:89 | joining the parts of a split gives back the string |
| `Strings.SplitJoin` | knowledge_base/populate.py:89 | splitting the join of separator-free parts gives back the parts |
| `Strings.JoinPrefix` | knowledge_base/populate.py:89 | joining a prefix of the parts gives a prefix of the joined string |
| `Strings.JoinLast` | knowledge_base/populate.py:89 | the join is the join of all parts but the last, the separator, then the last part |
| `Strings.SliceTo` | knowledge_base/populate.py:89 | `xs[:k]` is a prefix of xs, of length min(k, len) for k >= 0 and max(0, len + k) for k < 0 |
| `Strings.LowerChar` | knowledge_base/populate.py:72 | ASCII lower-casing of one character maps upper-case letters to lower-case ones and leaves every other character |
| `Strings.Lower` | knowledge_base/populate.py:72 | the lower-cased label has the same length and no ASCII upper-case letter; each character is lower-cased by `LowerChar`, so every other character is kept |
| `Strings.ReplaceChar` | knowledge_base/populate.py:117 | replacing ':' by '-' keeps the length, changes exactly the ':' characters, and leaves no ':' |
| `Strings.PathJoin` | knowledge_base/populate.py:117 | an absolute name replaces the directory; otherwise the path starts with the directory, then one '/' unless the directory is empty or ends in '/', then the name |
| `Populate.FileName` | knowledge_base/populate.py:117 | the file name is the URN with every ':' turned into '-', followed by ".json", and contains no ':' |
| `Populate.DownloadPath` | knowledge_base/populate.py:117 | the download path ends with that file name and, for a URN not starting with '/', starts with basedir; it is basedir + "/" + file name when basedir is non-empty and does not end in '/', basedir + file name when basedir is empty or ends in '/', and the file name alone when the URN starts with '/' |
| `Populate.ListLevel` | knowledge_base/populate.py:81-100 | the inner loop, appending one element per listed reference, yields exactly that level's list |
| `Populate.FetchTextStructure` | knowledge_base/populate.py:33-102 | the step-by-step construction (edition choice, level list, nested loops appending elements) returns exactly `TextStructureOf` |
| `Populate.DownloadTextStructure` | knowledge_base/populate.py:105-119 | the structure is fetched from the default endpoint and written, None included, at `DownloadPath(basedir, urn)` |

## Left out

- The CTS client (`HttpCtsResolver`, `HttpCtsRetriever`, `getMetadata`, `getReffs`, `getTextualNode`) is network I/O in a foreign library; its answers are the inputs `Service.children`, `Service.reffs` and `Service.navigation`.
- Failures of those remote calls other than "no matching edition" propagate uncaught in the code; the `Service` functions are total, so the model has no such failure path.
- Exceptions raised while selecting the edition for reasons other than "no child matches" (a malformed child, say) are not modelled; only the empty search reaches the None path.
- Opening the output file and `json.dump` are standard-library I/O: `DownloadTextStructure` returns the path and the content it would write. JSON's turning of integer keys into strings and of tuples into lists is not modelled.
- `Populate.TextStructureOf`: the structure is a datatype and "valid_reffs" and each element are `map`s, so the insertion order of the dicts' keys, which `json.dump` writes out, is not captured: neither the top-level key order, nor the ascending level numbers of "valid_reffs", nor the order current, parent, previous, following within an element.
- `Populate.ListLevel`: the inner loop appends to a local list that is then stored under the level number; the code stores an empty list first and appends to it through the dict. The resulting structure is the same; the aliasing between the dict entry and the list is not modelled.
- `Strings.Lower`: only ASCII letters are folded; Python's full Unicode case mapping belongs to the language runtime.
- `Strings.PathJoin`: POSIX `os.path.join` of two components; Windows path rules are not modelled.
- `populate_text_structure` is an unimplemented stub that returns None; there is nothing to model.
- The printing of errors and references, the module logger and the `ipdb` import are diagnostics with no effect on the result.
- The module docstring's idea of reading TEI milestones by XPath is a note, not code.
