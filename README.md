# bev: path resolution and tree handling, in Dafny

This project models the core of `bev`, a tool that keeps large files out of a
git repository. Each file or folder is replaced by a `<name>.hash` marker. A
marker holds either a bare hex key for a file, or `T:` + hex for a folder. The
`T:` form names a stored JSON mapping from relative path to key (a "tree").
The model covers:

- the marker and tree vocabulary (`bev/hash.py`):
  - suffix handling;
  - the `T:` prefix;
  - `normalize_tree`, which flattens a nested mapping and checks digest length and duplicates;
  - the sorted serialisation behind `tree_to_hash`.
- the resolver of `Repository` (`bev/interface.py`):
  - `_split`, the ancestor walk in which the shallowest marker wins;
  - `get_key` and its outcomes;
  - `load_tree`;
  - `resolve`, including its name-conflict rule for the `Local` version;
  - `_expand_folders`;
  - argument defaulting, `copy` and `/`;
  - the tree memo, which only holds committed versions.
- the virtual directory enumerator `BevGlob` (`bev/wc.py`):
  - flat trees rebuilt as nested trees;
  - the `(version, path)` cache with its ancestor descent;
  - `_scandir`, which overlays decoded trees on a real or git listing and raises `NameConflict`;
  - `_iter`;
  - `_lexists`.
- `gather`, `load_hash` and `save_hash` (`bev/ops.py`), and the four conflict policies.
- `bev add` (`bev/cli/add.py`): merging a previous value with a new one, writing it, and removing the source.
- the configuration:
  - the class registry (`bev/config/registry.py`);
  - the first-match cluster choice and the root search (`bev/config/utils.py`);
  - the include and merge rules of `_parse` and `parse` (`bev/config/parse.py`).
- the git layer (`bev/vc.py`): command shaping, and the parsing of `git ls-tree` output.

The file system, git and the content store are given as functions (module
`Oracles`, and `Git.call` in `Vc`). Every operation is therefore deterministic
in them. A path is the sequence of its parts, as `pathlib` splits it.
Exceptions are values of `Errors.Error`.

Source code that changes things in place is modelled as classes and methods:

- `Repository`, with its mutable `prefix` and tree memo;
- the shared glob cache (`GlobCache`) and `BevGlob`;
- the registry table;
- the file writes of `save_hash` and `add`, recorded in a `Journal`.

Each method is proved against a specification function. The lemmas state what
the source promises about that function. Loops in the source are `while`
loops here; examples are `normalize_tree`'s result loop, `gather`'s walk,
`_expand_folders`, `_parse`'s entry and include loops, `list_dir`'s line
loop, `_scandir`'s listing loop, and `add`'s pairs.

## Model

| member | source | states |
|---|---|---|
| Hash.ToHash | bev/hash.py:23-27 | a marker path raises HashError and the empty path raises ValueError; otherwise the result is a marker with the same parent, named the old name plus `.hash` |
| Hash.Stem | bev/hash.py:34 | for a name `x.hash` with a non-empty `x`, the stem is `x`, so stem + `.hash` gives the name back; any other name is its own stem |
| Hash.FromHash | bev/hash.py:30-34 | a non-marker raises HashError; otherwise the result has the same parent, and a name that loses the `.hash` suffix |
| Hash.FromToHash | bev/hash.py:23-34 | `from_hash(to_hash(p)) == p` for every valid non-marker path with a name |
| Hash.StripTree | bev/hash.py:51-54 | a `T:` key loses exactly its prefix; any other key is unchanged |
| Hash.StripTreePrefix | bev/hash.py:51-54 | `strip_tree("T:" + k) == k`, and `"T:" + k` is a tree key |
| Hash.Flatten | bev/hash.py:71-88 | no error iff every leaf is a string of `2 * digest_size` characters and every value is a string or a mapping; the error is ValueError or TypeError; every yielded pair has a valid path and a key of the right length |
| Hash.FlattenYieldsLeaf | bev/hash.py:75-80 | every valid string leaf is yielded under its own key |
| Hash.FlattenYieldsNested | bev/hash.py:82-84 | every pair yielded inside a nested mapping is yielded again with the outer key prepended (`key / k`) |
| Hash.CollectedKeys | bev/hash.py:91-99 | the result's keys are exactly the rendered paths that flattening yields |
| Hash.CollectedFrom | bev/hash.py:91-99 | every key of the result maps to the key of some yielded pair with that path |
| Hash.CollectedConsistent | bev/hash.py:94-99 | with no path repeated under a different key, each yielded path maps to its own key; identical repeats are accepted |
| Hash.InconsistentStep | bev/hash.py:94-96 | a path seen again with a different key makes the whole stream inconsistent, so it raises |
| Hash.Fill | bev/hash.py:91-99 | the loop filling `result` gives the collected mapping when no path repeats with a different key, and ValueError otherwise |
| Hash.NormalizeTree | bev/hash.py:70-102 | the loop over the flattened stream computes the normalised tree or its error |
| Hash.NormalizedSpec | bev/hash.py:70-102 | `normalize_tree` succeeds iff every leaf is valid and no path repeats with a different key; the result's keys are exactly the flattened paths, and each maps to its yielded key |
| Hash.NormalizedIsCanonical | bev/hash.py:70-102 | a normalised tree holds only keys of `2 * digest_size` characters, under valid paths |
| Hash.LessIrreflexive | bev/hash.py:60 | the string order used by `sorted` is irreflexive |
| Hash.LessAsymmetric | bev/hash.py:60 | the string order is asymmetric |
| Hash.LessTransitive | bev/hash.py:60 | the string order is transitive |
| Hash.LessTotal | bev/hash.py:60 | any two different strings are ordered one way or the other |
| Hash.SortedKeysSpec | bev/hash.py:60 | `sorted(tree)` holds exactly the tree's keys, in strictly increasing order |
| Hash.CanonicalSpec | bev/hash.py:60 | the serialised items are strictly ordered by path and are exactly the tree's pairs, so equal trees serialise identically |
| Hash.SortedItems | bev/hash.py:60 | the loop building the ordered mapping produces the canonical serialisation |
| Hash.TreeToHash | bev/hash.py:57-67 | normalisation errors propagate; otherwise the key is `T:` + the store's key for the canonical serialisation, and it is always a tree key |
| Hash.NormalizeSerialised | bev/hash.py:57-67 | normalising the serialisation of a normalised tree gives back the same tree |
| Ops.ConflictName | bev/ops.py:13-25 | each policy's value is one of `update`, `override`, `replace`, `error` |
| Ops.ConflictOf | bev/ops.py:13-25 | `Conflict(s)` succeeds exactly on those four strings and gives back the policy with that value |
| Ops.ConflictRoundTrip | bev/ops.py:13-25 | every policy is recovered from its value |
| Ops.LoadedHash | bev/ops.py:72-76 | a file key is returned unchanged; a tree key whose stored tree cannot be read raises; otherwise the result is a normalised tree |
| Ops.LoadHash | bev/ops.py:72-76 | reading the marker and loading it gives the loaded value of its key; a marker that cannot be read as a file raises FileNotFoundError, IsADirectoryError or OSError |
| Ops.SavedKey | bev/ops.py:79-87 | a file key is saved as itself; a tree is saved under a `T:` key |
| Ops.SaveHash | bev/ops.py:79-87 | on success the marker is written exactly once with the saved key, which is returned; on failure nothing is written |
| Ops.SaveLoad | bev/ops.py:72-87 | loading what `save_hash` wrote gives back the saved value, for a store that returns what it was given |
| Ops.Contribution | bev/ops.py:50-61 | a directory in the walk contributes nothing; a plain file contributes its stored key under its relative path; a marker contributes its key (or its decoded tree) under the un-suffixed path, or raises when the marker or the tree cannot be read |
| Ops.ContributeEntry | bev/ops.py:50-61 | the loop body computes one walk entry's contribution |
| Ops.CollectOk | bev/ops.py:50-61 | the folder walk succeeds iff every entry's contribution does |
| Ops.CollectLast | bev/ops.py:58-61 | the last contribution to a path is the one kept |
| Ops.CollectFrom | bev/ops.py:50-61 | every gathered path was contributed by some walk entry |
| Ops.GatherFolder | bev/ops.py:47-61 | the walk loop collects exactly the contributions, stopping at the first error |
| Ops.GatherSpec | bev/ops.py:28-69 | a missing source raises FileNotFoundError; a marker gives its loaded value, or the error of reading it; a directory gives a normalised tree; a regular file gives its stored key; anything else fails the assertion |
| Ops.Gather | bev/ops.py:28-69 | `gather` computes its specification |
| Ops.GatherLeaf | bev/ops.py:53-63 | a file marker inside the folder appears under its un-suffixed path with its key |
| Ops.GatherNested | bev/ops.py:53-63 | every entry of a tree marker inside the folder appears beneath the marker's un-suffixed path |
| Ops.GatherPlainFile | bev/ops.py:60-63 | every plain file inside the folder maps to its stored key |
| Ops.GatherOnlyFiles | bev/ops.py:47-61 | every gathered path comes from a non-directory entry, so empty directories contribute nothing |
| Add.FindMismatch | bev/cli/add.py:73-80 | None iff every shared path carries equal keys; otherwise a shared path whose keys differ |
| Add.Merged | bev/cli/add.py:69-93 | a folder needs a previous tree and gives their union, the new keys winning; a file needs a previous file key and gives the new key; otherwise it raises "not a folder" or "not a file" |
| Add.Previous | bev/cli/add.py:56-65 | nothing is read under `replace` or when the destination does not exist |
| Add.GatherAndWrite | bev/cli/add.py:54-101 | `error` on an existing destination and a non-file destination raise before anything is gathered; `update` clashes raise with the differing path; otherwise the merged value is saved. On failure nothing is written; on success the marker is written and then, unless kept, the source is removed |
| Add.ReplaceWritesGathered | bev/cli/add.py:64-95 | `replace` reads nothing from the destination and writes exactly the gathered value |
| Add.UpdateAcceptsAgreeing | bev/cli/add.py:73-83 | under `update`, agreeing shared keys are accepted and the union is saved |
| Add.Target | bev/cli/add.py:43-49 | a non-marker destination gets `.hash` appended; a pair whose source is the marker is skipped; otherwise the marker differs from the source |
| Add.TargetRecovers | bev/cli/add.py:44-45 | the marker of a non-marker destination leads back to that destination |
| Add.AddPair | bev/cli/add.py:44-51 | one pair: an invalid marker name raises its error; a source that is its own marker is skipped; otherwise `_gather_and_write` either fails with the error its rules give, or saves the value its rules give. The journal grows by exactly the pair's writes: nothing for a skipped pair, the marker with the saved key followed by the source's removal (none under `keep`) for a written one, and nothing on error |
| Add.AddAll | bev/cli/add.py:43-51 | on success every pair went through as `Add.AddPair` states, and the journal grew by exactly the writes of all pairs, in order; on error the error is that of a pair whose marker name is invalid or whose `_gather_and_write` failed, every pair before it went through, and the journal grew by exactly their writes |
| Add.WrittenValueOutcome | bev/cli/add.py:54-101 | `_gather_and_write` succeeds exactly when its rules give a value whose save succeeds, and then returns that value |
| Add.KeepRemovesNothing | bev/cli/add.py:35-51 | under `keep`, every write `add` records is a marker: no source is removed |
| Add.MarkerThenRemoval | bev/cli/add.py:95-101 | without `keep`, each marker `add` writes is immediately followed by the removal of its source |
| ConfigUtils.FirstMatch | bev/config/utils.py:19-21 | the first index at or after `k` whose cluster satisfies the predicate, or None when there is none |
| ConfigUtils.ChooseLocal | bev/config/utils.py:18-26 | the name of the first matching cluster; with no match, an unknown fallback raises ConfigError, and otherwise the fallback (possibly None) is returned |
| ConfigUtils.Hosts | bev/config/utils.py:35 | the hostnames, or the cluster name when there are none |
| ConfigUtils.DefaultChooseByName | bev/config/utils.py:29-36 | without `BEV__REPOSITORY` and without hostnames, a cluster matches iff the node is named after it |
| ConfigUtils.DefaultChooseByEnv | bev/config/utils.py:30-32 | with `BEV__REPOSITORY` set, a cluster matches iff its name equals it |
| ConfigUtils.FindRoot | bev/config/utils.py:39-43 | the nearest of the path and its ancestors that contains the marker; None when none does |
| ConfigUtils.FindRootIdempotent | bev/config/utils.py:39-43 | searching again from the root that was found finds that root |
| ConfigUtils.FindRootBetween | bev/config/utils.py:39-43 | searching from any path between the root and the start finds the same root |
| ConfigUtils.FindRepoRoot | bev/config/utils.py:46-47 | the nearest ancestor holding `.bev.yml` |
| ConfigUtils.FindVcsRoot | bev/config/utils.py:50-51 | the nearest ancestor holding `.git` |
| Registry.Registered | bev/config/registry.py:11-32 | a dotted name raises ValueError first; a non-type raises TypeError; a class without exactly one kind raises TypeError; a taken name raises ValueError; otherwise only `name -> cls` is added to the class's kind |
| Registry.Found | bev/config/registry.py:43-49 | an unknown kind or name raises RegistryError; otherwise the class registered under the name |
| Registry.RegisterThenFind | bev/config/registry.py:11-49 | after a successful `register(n, c)`, `find(n, kind)` gives `c`, and every other lookup is unchanged |
| Registry.Registry.constructor | bev/config/registry.py:4 | the registry starts with no kinds |
| Registry.Registry.Register | bev/config/registry.py:11-32 | succeeds iff registration is allowed, then returns the class and holds the new table; on failure the table is unchanged |
| Registry.Registry.Find | bev/config/registry.py:43-49 | looks a non-dotted name up in the current table |
| Registry.Registry.AddType | bev/config/registry.py:52-54 | the kind gets an empty table, so no name is found under it |
| ConfigParse.Apply | bev/config/parse.py:114 | each overridden setting takes the parent's value; the others are kept |
| ConfigParse.OwnEntry | bev/config/parse.py:76-85 | a string becomes `{storage: s}`; a non-dict raises ConfigError; a dict with a `name` key raises ConfigError; the entry is named after its key |
| ConfigParse.OwnEntriesNamed | bev/config/parse.py:76-85 | every own entry is named after its key, and the names are distinct |
| ConfigParse.ParseEntries | bev/config/parse.py:75-85 | the loop over the config items computes the own entries or the first error |
| ConfigParse.Adopt | bev/config/parse.py:96-112 | parent names overlapping the child's raise; a different non-None parent hash raises; otherwise the parent's entries are added |
| ConfigParse.ParentsNext | bev/config/parse.py:89-112 | a missing parent is skipped if optional and raises otherwise; a parent that fails to parse passes its error on; any other parent is adopted |
| ConfigParse.Parsed | bev/config/parse.py:68-115 | a non-dict config raises ConfigError |
| ConfigParse.Parse | bev/config/parse.py:68-115 | `_parse` computes its specification, recursing into the included configs |
| ConfigParse.ParseIncludes | bev/config/parse.py:88-112 | the loop over the includes computes the merged entries and settings, or the first error |
| ConfigParse.ParsedEntriesNamed | bev/config/parse.py:68-115 | every parsed entry is named after its key, and the names are distinct, because parent entries never overlap |
| ConfigParse.ParentsEntriesNamed | bev/config/parse.py:97-112 | entry names stay distinct after every include |
| ConfigParse.ParentsMeta | bev/config/parse.py:88-114 | only `hash` changes in meta during the includes; a child's own setting is never overridden; a child's own hash is kept; every loaded parent's hash agrees with the result |
| ConfigParse.ParsedHash | bev/config/parse.py:104-110 | an explicit hash is kept, and every loaded parent with a hash has the same one |
| ConfigParse.ParsedKeepsOwn | bev/config/parse.py:101-103 | a setting the child gives itself is kept |
| ConfigParse.ParentsInherit | bev/config/parse.py:101-103 | an unset setting takes the value of the last loaded parent, or stays unset when no parent is loaded |
| ConfigParse.ParsedInherits | bev/config/parse.py:101-114 | an unset `fallback`, `order` or `choose` ends up as the last loaded parent's value |
| ConfigParse.ParseRepository | bev/config/parse.py:47-65 | a single entry is local with no remotes; otherwise the first chosen entry is local and the rest are remotes, in order; with no choice, a missing fallback raises, an unknown fallback raises, and a known fallback is popped: its cluster is local and every other entry is a remote, in order; the meta settings are kept |
| ConfigParse.PopNamed | bev/config/parse.py:59-63 | in the parsed entries, each entry's name finds exactly that entry |
| Vc.DotSlash | bev/vc.py:56-57 | the path starts with `./`, which is added only when missing |
| Vc.Read | bev/vc.py:55-60 | None iff `git show version:./relative` fails; otherwise its output |
| Vc.SkipFlag | bev/vc.py:63-66 | no flag for `n == 0`; otherwise a `--skip` flag |
| Vc.SkipFlagValue | bev/vc.py:63-66 | the number in the flag reads back as `n` |
| Vc.GetVersion | bev/vc.py:62-72 | None iff `git log` fails or prints nothing; otherwise its output |
| Vc.Normpath | bev/vc.py:81 | normalising never lengthens a path, keeps it valid, and leaves every `..` before every real part |
| Vc.NormpathCancels | bev/vc.py:81 | a real part followed by `..` cancels out |
| Vc.NormpathOfNormal | bev/vc.py:81 | a path whose `..` parts all lead is left unchanged |
| Vc.NormpathIdempotent | bev/vc.py:81 | normalising twice is normalising once |
| Vc.NormpathPlain | bev/vc.py:81 | a path without `..` is already normal |
| Vc.TreeSuffix | bev/vc.py:82 | the suffix is empty exactly when the path is `.` |
| Vc.SplitLines | bev/vc.py:85 | empty output has no lines |
| Vc.SplitLine | bev/vc.py:92-93 | a line without its separators raises ValueError |
| Vc.SplitFormatLine | bev/vc.py:92-93 | splitting a line `mode kind hash\tname` recovers its four fields |
| Vc.AsWrittenMissesSymlinks | bev/vc.py:94 | with the kinds git prints, `kind == 'link'` never holds, so no entry is ever a symlink |
| Vc.AsWrittenSymlinkExample | bev/vc.py:94 | the symlink line `120000 blob 1f2e\tlink` is reported as a plain file |
| Vc.ParseEntryOfFormat | bev/vc.py:94 | each line gives its name, `is_dir` iff the kind is `tree`, and `is_symlink` iff the mode is `120000` |
| Vc.ParseAllSpec | bev/vc.py:91-96 | one entry per line, in order, when every line parses; otherwise the error of the first line that failed, every line before it having parsed |
| Vc.ListDir | bev/vc.py:74-96 | exit code 128 raises FileNotFoundError, other failures propagate, and otherwise the output lines are parsed, with the corrected symlink rule (see Findings and Left out) |
| Vc.ParseOutput | bev/vc.py:83-96 | the line loop computes the parse of all lines, with the corrected symlink rule (see Findings and Left out) |
| Interface.ExpandedSpec | bev/interface.py:295-300 | the expansion holds exactly the keys and every proper ancestor folder of each key |
| Interface.ExpandFolders | bev/interface.py:295-300 | the loop over the keys builds exactly that set |
| Interface.Repository.constructor | bev/interface.py:41-47 | a repository starts at an empty prefix, with a fresh glob cache and an empty tree memo |
| Interface.Repository.Copied | bev/interface.py:49-57 | a copy holds exactly the given settings and cache, with an empty tree memo |
| Interface.Repository.Copy | bev/interface.py:49-57 | each omitted argument keeps the current value; the shared cache is kept unless replaced |
| Interface.Repository.Div | bev/interface.py:215-221 | an absolute path raises ValueError; otherwise the prefix is extended, the cache is shared and every other setting is kept |
| Interface.Repository.ResolveVersion | bev/interface.py:283-288 | an omitted version falls back to the default; with neither, ValueError |
| Oracles.LoadKey | bev/hash.py:41-43 | `load_key` reads a regular file, following links; a missing path or dangling link raises FileNotFoundError, a directory IsADirectoryError, anything else OSError |
| Interface.Repository.ResolveRelative | bev/interface.py:290-293 | the prefix followed by the parts, read as relative paths (see Left out): the path lies under the prefix, and is the prefix when no parts are given |
| Interface.Repository.OwnMarker | bev/interface.py:263-271 | a missing marker raises HashNotFound; a marker that cannot be read raises the reading error; a tree key gives `(key, '.')`; a file key is returned bare |
| Interface.Repository.SplitUnreadable | bev/interface.py:239-261 | when the outermost existing ancestor marker cannot be read as a file, `_split` raises the reading error |
| Interface.Repository.SplitFromSkips | bev/interface.py:256-261 | ancestors without markers are passed over |
| Interface.Repository.SplitOutermost | bev/interface.py:256-261 | the outermost ancestor with a marker wins and yields its stripped key and the rest of the path |
| Interface.Repository.SplitOwn | bev/interface.py:254-271 | with no ancestor marker, the path's own marker decides |
| Interface.Repository.KeyOf | bev/interface.py:174-201 | a hashed folder raises even when `error` is false; HashNotFound from the split raises iff `error`, else None; a file marker gives its key; a found entry comes from the stored tree; None only when `error` is false |
| Interface.Repository.KeyInTree | bev/interface.py:192-201 | inside a tree, an entry gives its key; a folder inside the tree raises; any other miss raises iff `error`, else None |
| Interface.Repository.KeyOfHashedFolder | bev/interface.py:188-190 | a path whose own marker is a tree raises "hashed folder" whatever `error` is |
| Interface.Repository.KeyOfUnmarked | bev/interface.py:178-183 | a path with no marker raises iff `error`, else None |
| Interface.Repository.GetTree | bev/interface.py:229-237 | the stored tree is returned; only committed versions are memoised |
| Interface.Repository.GetKey | bev/interface.py:174-201 | `get_key` returns `KeyOf` of the resolved path and version, or the version error; `Local` leaves the memo alone |
| Interface.Repository.LoadTree | bev/interface.py:203-211 | the marker at the path itself is read; missing raises HashNotFound; unreadable raises the reading error; otherwise the tree of its stripped key |
| Interface.Repository.Resolve | bev/interface.py:103-143 | under `Local`, an existing path that is itself a marker raises HashError, one whose marker also exists raises NameConflict, and one whose marker is missing is returned as is; otherwise the key of the same path is resolved and located in the store (the corrected lookup, see Findings) |
| Interface.Repository.ResolveLookupDoubles | bev/interface.py:131-142 | as written, `resolve` looks up the key of the prefix followed by the already prefixed path, which differs from the checked path whenever the prefix is not empty |
| Interface.Repository.ResolveLookupExample | bev/interface.py:131-142 | with prefix `a`, `resolve('b')` as written looks up `a/a/b` where the working-copy branch checks `a/b` |
| Interface.Repository.MakeGlob | bev/interface.py:145-171 | `Local` gives a working-copy glob with a fresh cache; a committed version gives a git glob sharing the repository's cache |
| WcTrees.PutFinds | bev/wc.py:75-86 | after inserting a value at a path, following that path finds it |
| WcTrees.PutElsewhere | bev/wc.py:75-86 | inserting leaves every unrelated path unchanged |
| WcTrees.PutOk | bev/wc.py:75-86 | insertion succeeds when no proper prefix of the path holds a file |
| WcTrees.PutOnlyAdds | bev/wc.py:75-86 | every file found after an insertion is the new one or was already there |
| WcTrees.NormalizeNested | bev/wc.py:75-86 | the in-place build of the nested tree computes `Nest` of the flat tree |
| WcTrees.NestSpec | bev/wc.py:75-86 | when no key is an ancestor of another, nesting succeeds, each key's parts lead to its value, and nothing else is a file |
| WcTrees.DescendLookup | bev/wc.py:65-70 | the cursor walk succeeds exactly where the path leads somewhere, and finds it |
| Wc.CachedNearest | bev/wc.py:59-70 | the nearest cached ancestor decides; the walk down it fails iff the path is not in its tree |
| Wc.CachedExact | bev/wc.py:59-70 | with no cached ancestor, the exact entry is used, and otherwise None |
| Wc.SubtreeEntries | bev/wc.py:113-117 | one entry per subtree name, a folder iff the value is a mapping, never a symlink |
| Wc.EntryOutcome | bev/wc.py:119-142 | a non-marker passes through unchanged; a marker whose plain name exists raises NameConflict; a marker that cannot be read raises the reading error; otherwise the marker is reported under its plain name and its key or tree is cached |
| Wc.ScanFoldResult | bev/wc.py:119-142 | the listing loop succeeds iff every entry does, giving one entry per listed name in order; otherwise it gives the first error |
| Wc.ScanFoldCacheStored | bev/wc.py:130-139 | every marker's value is cached under its plain path, the last write winning |
| Wc.ScanFoldCacheUntouched | bev/wc.py:119-142 | paths no entry stores keep their cache entries |
| Wc.ScanFoldCacheOwnVersion | bev/wc.py:119-142 | entries of other versions are never touched |
| Wc.ScanCachedSubtree | bev/wc.py:102-117 | a folder with a non-empty cached subtree lists exactly that subtree, and the backend is never consulted |
| Wc.ScanDecodesMarker | bev/wc.py:106-117 | a folder with its own tree marker is decoded, cached and listed from the decoded tree |
| Wc.ScanRealListing | bev/wc.py:119-142 | with nothing cached and no tree marker, the real listing is scanned, or its error is returned |
| Wc.Filter | bev/wc.py:27-35 | with `dir_only` only folders remain; otherwise everything does |
| Wc.SpecialEntries | bev/wc.py:27-35 | the special names come as hidden folders |
| Wc.LexistsSpec | bev/wc.py:88-94 | a cached path exists; otherwise a path exists iff it or its marker exists |
| Wc.GlobCache.constructor | bev/interface.py:47 | the shared cache starts empty |
| Wc.BevGlob.Local | bev/wc.py:145-161 | a working-copy glob files its cache under no version, and starts with an empty cache of its own |
| Wc.BevGlob.Committed | bev/wc.py:164-176 | a git glob files its cache under its version and shares the cache it is given |
| Wc.BevGlob.GetCached | bev/wc.py:59-70 | the cursor walk computes the cached lookup |
| Wc.BevGlob.SetCached | bev/wc.py:72-73 | only the `(version, path)` entry changes |
| Wc.BevGlob.Decode | bev/wc.py:75-86 | the decoded tree of a key, nested |
| Wc.BevGlob.Entry | bev/wc.py:119-142 | one listing entry's outcome |
| Wc.BevGlob.ScanListing | bev/wc.py:119-142 | the listing loop gives the fold's entries and leaves the cache it describes |
| Wc.BevGlob.Scandir | bev/wc.py:96-142 | `_scandir` computes the scan specification: its entries and the new cache |
| Wc.BevGlob.Iter | bev/wc.py:27-35 | the specials come first, then the scanned entries, only folders when `dir_only`; the cache is the scan's |
| Wc.BevGlob.Lexists | bev/wc.py:88-94 | `_lexists` computes its specification |

## Left out

- The content store is not modelled. `storage.read`, `write` and `fetch` are functions in `Oracles.Store`, and the hashing algorithms are not part of this model.
- The `check=True` digest recomputation in `resolve` (bev/interface.py:121-129) is not modelled.
- The file system, `git` and `subprocess` are oracles. Their answers are not required to be coherent with each other; for example, `walk` need not agree with `kind`.
- `shlex` splitting of git commands is not modelled. A command is the string passed to `_call_git`.
- Wildcard matching (`wcmatch`, `GLOBSTAR`) is not modelled, only the enumeration it is fed. `is_hidden` is the matcher's rule, given as a parameter.
- The JSON byte layout of trees is not modelled. Only the sorted order of the serialised items is kept.
- `lru_cache` on `read`, `list_dir` and `_load_cached_tree` is not modelled: the oracles are deterministic. Thread safety of the caches is not modelled either.
- `_git_root` memoisation in `list_dir` is not modelled. The git root is `find_vcs_root` each time.
- The pydantic schema and validators are not modelled. A cluster is its name and its fields as text.
- Include reading (bev/config/include.py) is not part of this model. Each include carries its already-read config, or None.
  - Include cycles are not modelled.
  - Relative include paths are not modelled.
- `meta.choose` importing is not modelled. It is the `imported` parameter.
- Hostname regex matching is a parameter, and so are the environment and the node name.
- Registry.Registry.Find: dotted names looked up through `importlib` are not modelled, so the method requires a name without dots.
- The CLI other than `add` is not modelled, nor is `normalize_sources_and_destination`, which computes the pairs `add` receives.
- `Path.resolve()` in `resolve` and `_find_root` is not modelled. Paths are taken to be already absolute and free of symlinks.
- Exception classes are simplified to the kinds bev raises, with a reason.
- `AttributeError` and `TypeError` from indexing a file key are both reported as `TypeError`.
- `str.splitlines` is modelled as splitting on `\n` only.
- Generators are consumed in full, and the progress bar is the identity.
- Add.AddAll: the file writes of `add` are recorded in a `Journal` and not reflected in the file system oracle. So later pairs see the file system as it was before `add` began, and the removal of a source is recorded but not applied.
- Interface.Repository.Resolve: looks up the key of the path it checks in the working copy, the corrected behaviour of the finding on bev/interface.py:142. As written, bev looks up that path with the prefix prepended once more (`Interface.Repository.ResolveLookupAsWritten`).
- Vc.ListDir, Vc.ParseOutput and Wc.BevGlob.Scandir parse `git ls-tree` lines with the corrected rule of the finding on bev/vc.py:94: an entry is a symlink iff its mode is `120000`. As written, bev reports no committed entry as a symlink (`Vc.ParseLineAsWritten`).
- Paths.ParsePath: a part that starts with `/` is not treated as absolute. pathlib restarts the path at such a part; here the leading `/` is dropped and the part is appended.
- Interface.Repository.ResolveRelative: the parts are taken as relative. An absolute part, which pathlib lets replace the prefix, is appended under the prefix instead. The same holds for the `Local` and committed lookups built on it, and for the ancestors of `_expand_folders`.
- Hash.Flatten: a nested key that starts with `/` is appended under the outer key, where `key / k` (bev/hash.py:84) would restart at it.
- Ops.Gather and Ops.SaveHash take the content store and `fetch` directly. The `Repository` overload of `gather` and `save_hash` (bev/ops.py:35-38, 80-81) is not modelled: there `fetch` defaults to the repository's own, and the repository's store is used.
- Oracles.Disk: opening a FIFO blocks in bev, and a device may be readable; the model reports every non-regular, non-directory file as unreadable (`Unreadable`).
- Add.FindMismatch: `set(current) & set(previous)` has no fixed order, so any shared path whose keys differ may be the one reported.
- Flat trees (`normalize_tree` results) are maps, so their insertion order is not kept. The nested trees of `bev/wc.py` and the decoded JSON trees keep their order.

## Findings

| source | as written | input that shows it | evidently intended | confidence | as-written member | corrected member |
|---|---|---|---|---|---|---|
| bev/interface.py:142 | `self.get_key(relative, ...)` passes the already prefixed `relative`, and `get_key` prefixes it again (bev/interface.py:177) | on `repo / 'a'`, `resolve('b')` checks `root/a/b` in the working copy but looks up the key of `a/a/b` | the key of `a/b` is looked up, the path the working-copy branch checks | not executed | Interface.Repository.ResolveLookupExample | Interface.Repository.Resolve |
| bev/vc.py:94 | `TreeEntry(name, kind == 'tree', kind == 'link')`, but `git ls-tree` prints a symbolic link with kind `blob` and mode `120000`, so `kind == 'link'` never holds | the line `120000 blob 1f2e\tlink` gives `TreeEntry('link', False, False)` | `is_symlink` holds iff the mode is `120000` | not executed | Vc.AsWrittenSymlinkExample | Vc.ParseEntryOfFormat |
