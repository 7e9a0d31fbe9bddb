# Disk tree

This project models a small directory-tree builder and proves properties about it.

Input is a list of paths such as `a\b\c`, whose segments are separated by a backslash. `Solve` creates a root folder with an empty name. For every path it walks down from the root, getting or adding one subfolder per segment. Then it renders the tree as lines:

- each folder is written as `depth` spaces followed by its name;
- the root itself is not written, so its subfolders start at depth 0;
- the subfolders of every folder appear in ascending ordinal order of their names, and each one is followed directly by everything below it.

The model has two layers.

- **Value layer.** This is a description of the tree and its rendering as pure values.
  - `Ordinal`: ordinal string comparison, and the sorted sequence of a set of names.
  - `PathSplit`: splitting a path at the separator, exactly as `String.Split(char)` does. Empty segments are kept.
  - `FolderTree`: the tree as a datatype, built as a fold of get-or-add over the paths.
  - `TreeFormat`: the rendering as a function, plus an independent preorder listing of the folders.
  - `DiskTreeSpec`: `SolveSpec` and the theorems about what `Solve` outputs.
- **Object layer.** Module `DiskTree` holds the C# objects.
  - `Folder` is a class whose subfolder dictionary `GetOrAddSubfolder` updates in place.
  - `GetFormattedTree` appends to a shared `Lines` list.
  - `ProcessPath` and `Solve` are methods with loops.
  - A ghost map from each path to the folder at its end describes the object tree. `IsTree` states that this map is exactly the tree hanging off the root.
  - Each method is proved against the value layer. For example, `Solve` returns exactly `SolveSpec(directoryPaths)`.

## Model

| member | source | states |
|---|---|---|
| DiskTree.Lines.Add | DiskTreeTask.cs:38 | appending a line to the result list extends it by exactly that line at the end |
| DiskTree.Folder.constructor | DiskTreeTask.cs:14-17 | a new folder has the given name and an empty subfolder dictionary |
| DiskTree.Folder.GetOrAddSubfolder | DiskTreeTask.cs:20-32 | if the name is present, the existing subfolder is returned and the dictionary is unchanged; if it is absent, a fresh folder with that name and no subfolders is returned and added under that key, with all other entries kept; the invariant that every key equals its folder's name is preserved |
| DiskTree.Folder.SortedSubfolders | DiskTreeTask.cs:51-53 | the result has one entry per subfolder, and entry i is the folder stored under the i-th key in ascending ordinal order |
| DiskTree.Folder.SortedSubfoldersOrder | DiskTreeTask.cs:51-53 | every subfolder appears in the sorted sequence; when keys equal names, the names strictly ascend in ordinal order, so no folder is visited twice |
| DiskTree.Folder.GetFormattedTree | DiskTreeTask.cs:35-48 | returns the same list it was given; that list's old contents are followed by exactly `Format` of this folder's subtree at `depth`, so the method only appends |
| DiskTree.ProcessPath | DiskTreeTask.cs:74-81 | afterwards the tree holds every prefix of the split path and nothing else new; existing folders stay at their paths; new folders are fresh; the tree invariant holds; a path whose prefixes are all present leaves the tree unchanged |
| DiskTree.Solve | DiskTreeTask.cs:59-71 | the returned lines are exactly `SolveSpec` of the input paths, i.e. the rendering at depth -1 of the tree the paths build |
| DiskTree.IsTreeGrow | DiskTreeTask.cs:79 | one get-or-add step below a listed folder keeps the path map a tree without duplicate folders, and maps the extended path to the returned folder |
| DiskTree.ShapeIsBuild | DiskTreeTask.cs:61-67 | the object tree whose paths are the root plus every prefix of the split inputs has exactly the shape of `Build` of those inputs |
| Ordinal.CodeUnits | DiskTreeTask.cs:52 | a character below U+10000 is one code unit, itself, never a surrogate; a character above U+FFFF is a high surrogate followed by a low surrogate |
| Ordinal.Utf16Injective | DiskTreeTask.cs:52 | two strings with the same UTF-16 code units are the same string |
| Ordinal.LessTotal | DiskTreeTask.cs:52 | ordinal comparison of the code units orders any two distinct names one way or the other |
| Ordinal.LessTransitive | DiskTreeTask.cs:52 | ordinal comparison is transitive |
| Ordinal.LessOneChar | DiskTreeTask.cs:52 | for one-character names, ordinal order is code point order when both are below U+10000 or both above, and every character above U+FFFF sorts before U+E000 to U+FFFF |
| Ordinal.SurrogatePairFirst | DiskTreeTask.cs:52 | U+1F600 sorts before U+FF01 because its first code unit D83D is below FF01 |
| Ordinal.Least | DiskTreeTask.cs:52 | a non-empty set of names has a member that sorts before every other member |
| Ordinal.SortedKeys | DiskTreeTask.cs:52 | the sorted names are strictly ascending and contain exactly the names of the set, each once |
| Ordinal.AscendingUnique | DiskTreeTask.cs:52 | two strictly ascending sequences with the same elements are equal, so the sort order is unique |
| PathSplit.Split | DiskTreeTask.cs:76 | splitting yields at least one segment, and no segment contains the separator |
| PathSplit.JoinSplit | DiskTreeTask.cs:76 | joining the segments with the separator gives back the original path |
| PathSplit.SplitJoin | DiskTreeTask.cs:76 | splitting a join of one or more separator-free segments gives back those segments |
| PathSplit.SplitLength | DiskTreeTask.cs:76 | there is one more segment than there are separators, so empty segments are kept |
| FolderTree.InsertPathWellKeyed | DiskTreeTask.cs:27-29 | get-or-add along a path keeps every key equal to its folder's name and keeps the root name |
| FolderTree.InsertPathPaths | DiskTreeTask.cs:77-80 | processing a path adds exactly the prefixes of its segments to the tree's paths |
| FolderTree.InsertPathPresent | DiskTreeTask.cs:22-23 | processing a path that is already in the tree returns the tree unchanged |
| FolderTree.InsertPathIdempotent | DiskTreeTask.cs:74-81 | processing the same path twice builds the same tree as processing it once |
| FolderTree.Extensionality | DiskTreeTask.cs:11 | two well-keyed trees with the same root name and the same set of paths are equal |
| FolderTree.InsertPathCommutes | DiskTreeTask.cs:64-67 | processing two paths in either order builds the same tree |
| FolderTree.BuildPaths | DiskTreeTask.cs:59-67 | the built tree is well keyed, has an empty root name, and its paths are the root plus every prefix of every split input path |
| FolderTree.BuildOrderIndependent | DiskTreeTask.cs:64-67 | inputs with the same set of paths, in any order and with any repetition, build the same tree |
| TreeFormat.Indent | DiskTreeTask.cs:38 | the indentation is exactly `n` space characters |
| TreeFormat.PreorderFacts | DiskTreeTask.cs:42-44 | the preorder listing holds every non-root folder exactly once, in ascending path order: a folder comes before everything below it, and siblings come in ordinal name order |
| TreeFormat.FormatLines | DiskTreeTask.cs:36-44 | at depth -1 line i is entry i of the preorder, indented by its depth below the root; at depth ≥ 0 the first line is `depth` spaces plus the folder's name and the rest render the preorder one level deeper |
| TreeFormat.AscendingCard | DiskTreeTask.cs:42-44 | a strictly ascending listing has no repeats, so its length is the number of distinct folders |
| DiskTreeSpec.SolveListing | DiskTreeTask.cs:59-71 | the output has one line per listed folder; the listing holds exactly the folders the paths create, in ascending path order; line i is that folder's name indented by its depth |
| DiskTreeSpec.SolveCount | DiskTreeTask.cs:59-71 | the output has exactly one line per non-root folder, so empty input yields an empty output |
| DiskTreeSpec.SolveOrderIndependent | DiskTreeTask.cs:64-67 | the output depends only on the set of input paths, not their order |
| DiskTreeSpec.SolveRepeatedPath | DiskTreeTask.cs:74-81 | repeating a path adds no lines |
| DiskTreeSpec.SolveSiblingsAscending | DiskTreeTask.cs:51-53 | of two siblings, the one listed first has the ordinally smaller name |
| DiskTreeSpec.SolveParentFirst | DiskTreeTask.cs:37-44 | a folder is listed before every folder below it |
| DiskTreeSpec.SolveSubtreeContiguous | DiskTreeTask.cs:42-44 | the folders below a folder form one contiguous block directly after it |
| DiskTreeSpec.SolveReversed | DiskTreeTask.cs:59-71 | two single-segment paths given in descending ordinal order come out in ascending order |
| DiskTreeSpec.Example1 | DiskTreeTask.cs:59-71 | `a\b`, `a\c` renders as `a`, ` b`, ` c` |
| DiskTreeSpec.Example2 | DiskTreeTask.cs:59-71 | `a\b\c`, `a\d` renders as `a`, ` b`, `  c`, ` d` |
| DiskTreeSpec.Example4 | DiskTreeTask.cs:59-71 | `b`, `a` renders as `a`, `b` |
| DiskTreeSpec.ExampleSurrogates | DiskTreeTask.cs:59-71 | U+FF01, U+1F600 renders as U+1F600, U+FF01: the sort is by code unit, not code point |

## Left out

- `Dictionary<string, Folder>` is modelled as a Dafny `map`. Hashing and iteration order are not modelled, because the code re-sorts the values before using them.
- `OrderBy` is modelled as the values listed in the sorted order of their keys. LINQ laziness and sort stability are not modelled. The code sorts by `Name`. For every folder in the tree, each key equals its folder's name: `IsTree` requires this through `ParentsListed`, and `ShapeAt` uses it. Because the keys are unique, stability does not matter. `GetOrAddSubfolder` preserves `KeysMatchNames`, and `SortedSubfoldersOrder` relies on it.
- Dafny characters are Unicode scalar values, while a .NET string is a sequence of UTF-16 code units. Names are compared on their UTF-16 encoding (`Utf16`), as `StringComparer.Ordinal` does. A .NET string can also hold a lone surrogate, which no Dafny string can represent, so names with unpaired surrogates are not modelled.
- Null arguments and null path strings are not modelled, because the code does not handle them.
- Stack depth on deep trees, and the allocation of strings and lists, are not modelled.
- DiskTree.Folder.GetFormattedTree: requires `depth >= -1`. `new string(' ', depth)` throws for a negative count, and every call in the code satisfies this requirement. The method also takes two ghost parameters that the C# method lacks: the path map of the whole tree and the folder's own path.
- DiskTree.Folder.GetFormattedTree: the returned `List<string>` is modelled as the same `Lines` object that was passed in, which is the only thing the code ever returns.
- DiskTree.ProcessPath: requires that the folder is the root of a well-formed tree, described by the ghost path map. This holds for every call from `Solve`. Calls on an arbitrary folder graph with shared or cyclic subfolders are not modelled.
- DiskTree.Folder.GetOrAddSubfolder: preserving the key/name invariant is stated as a separate postcondition, not as a class invariant.
