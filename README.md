# Unity editor tools: scene auto-loader and assembly-reload lock

A Dafny model of the decision and data logic inside two Unity Editor
extensions, with the editor's own answers passed in as plain inputs.

- **Scene auto-loader.** Three editor preferences are kept: whether to load
  the master scene on play, the master scene's path, and the scene hierarchy
  saved at play time. The hierarchy is stored as one pipe-delimited string of
  `active|loaded|path` triples (module `SceneCodec`). On play the callback
  saves the hierarchy and opens the master scene. On stop it schedules a
  reload. The reload decodes the saved list and makes the first loaded scene
  active, working around an editor bug, before handing the list back
  (modules `SceneRestore` and `AutoLoader`). Menu items set the
  preferences.
- **Inspector window.** An "Active" toggle and a dropdown of the project's
  scenes with a `<No scene chosen>` placeholder. The window maps between
  master-scene paths, dropdown indices and display names, and writes a
  preference only when its value changed (module `AutoLoaderWindow`).
- **Assembly-reload lock.** A `Locked` flag follows the editor's `isPlaying`.
  The reload lock is taken on the way into play mode and released on the way
  out. Ghost counters show that lock and unlock calls balance (module
  `AssemblyReloadLock`).

The preference store is the set of fields of the `SceneAutoLoader` object.
Every write to it is also appended to a ghost log, so "written only when
changed" can be stated. The decoder fills a fresh array in a loop. The
active-scene workaround changes that array in place.

`ReloadLastScene` can throw `IndexOutOfRangeException`
(SceneAutoLoader/Assets/Editor/SceneAutoLoader.cs:142-145). When exactly one
of "first active" and "first loaded" is missing, it indexes the array at -1.
The model gives this path the `IndexOutOfRange` outcome: the stored list is
kept and the reload stays scheduled. A list the editor itself reports has one
active, loaded scene and never faults (`SceneRestore.SingleActiveMovesToFirstLoaded`).
The stored list can still fault, in two ways. A hand-edited preference can
hold any list. And a scene path holding `|` shifts the stored triples, so a
hierarchy whose active scene follows such a path can read back with no
active scene. For example, the path `a|false` does this
(`SceneRestore.SeparatorInPathFaults`).

## Model

| member | source | states |
|---|---|---|
| `SceneCodec.Split` | SceneAutoLoader/Assets/Editor/SceneAutoLoader.cs:186 | `Split('\|')` always yields at least one token (`""` gives `[""]`) and no token contains the separator |
| `SceneCodec.Join` | SceneAutoLoader/Assets/Editor/SceneAutoLoader.cs:205 | `string.Join`: no tokens give `""`, and the text starts with the first token |
| `SceneCodec.JoinSplit` | SceneAutoLoader/Assets/Editor/SceneAutoLoader.cs:186 | joining the tokens of a split with the separator gives back the split string |
| `SceneCodec.SplitJoin` | SceneAutoLoader/Assets/Editor/SceneAutoLoader.cs:186 | splitting the join of at least one separator-free token gives back exactly those tokens |
| `SceneCodec.FlagToken` | SceneAutoLoader/Assets/Editor/SceneAutoLoader.cs:205 | a flag is written as `"true"` or `"false"`, and the decoder reads it back as the same flag |
| `SceneCodec.ParseFlag` | SceneAutoLoader/Assets/Editor/SceneAutoLoader.cs:195-196 | `"true"` reads as true, and only `"false"` reads as false, so any other token also reads as true |
| `SceneCodec.Encode` | SceneAutoLoader/Assets/Editor/SceneAutoLoader.cs:205 | the setter's text is `""` exactly for the empty list, and otherwise starts with the first scene's active flag |
| `SceneCodec.EncodeJoinsTokens` | SceneAutoLoader/Assets/Editor/SceneAutoLoader.cs:205 | the encoder's per-scene `Select` joined by `\|` is the flat `active\|loaded\|path` token list joined by `\|` |
| `SceneCodec.DecodeTokens` | SceneAutoLoader/Assets/Editor/SceneAutoLoader.cs:188-198 | the decoded list has token count / 3 scenes, rounded down, and its paths are free of `\|` when the tokens are |
| `SceneCodec.Decode` | SceneAutoLoader/Assets/Editor/SceneAutoLoader.cs:184-198 | the getter reads token count / 3 scenes, `""` reads as the empty list, and no decoded path holds `\|` |
| `SceneCodec.DecodeTokensAt` | SceneAutoLoader/Assets/Editor/SceneAutoLoader.cs:192-198 | scene i is read from tokens 3i, 3i+1 and 3i+2, each flag being true unless its token is exactly `"false"` |
| `SceneCodec.DecodeScenes` | SceneAutoLoader/Assets/Editor/SceneAutoLoader.cs:184-200 | the getter's loop fills a fresh array whose contents are exactly the decode of the stored string |
| `SceneCodec.DecodeEncode` | SceneAutoLoader/Assets/Editor/SceneAutoLoader.cs:182-208 | decoding the encoding of any scene list gives the same list back, provided no path contains `\|` |
| `SceneCodec.RoundTripExactlyWithoutSeparator` | SceneAutoLoader/Assets/Editor/SceneAutoLoader.cs:182-208 | decoding the encoding gives the list back if and only if no path contains `\|` |
| `SceneCodec.SeparatorInPathBreaksRoundTrip` | SceneAutoLoader/Assets/Editor/SceneAutoLoader.cs:186-197 | a path holding `\|` does not survive the round trip: `a\|b` reads back as `a` |
| `SceneCodec.EmptyList` | SceneAutoLoader/Assets/Editor/SceneAutoLoader.cs:184-188 | the empty list encodes to `""`, and the unset default `""` decodes to the empty list |
| `SceneCodec.DecodeLength` | SceneAutoLoader/Assets/Editor/SceneAutoLoader.cs:186-192 | the decoded list is empty exactly when the stored string splits into fewer than three tokens |
| `SceneCodec.TrailingTokensIgnored` | SceneAutoLoader/Assets/Editor/SceneAutoLoader.cs:188-192 | a trailing incomplete triple does not change the decoded list |
| `SceneCodec.JoinSplitsToken` | SceneAutoLoader/Assets/Editor/SceneAutoLoader.cs:205 | a token holding `\|`, at any position in the token list, joins to the same text as its two halves side by side |
| `SceneCodec.FlagRoundTrip` | SceneAutoLoader/Assets/Editor/SceneAutoLoader.cs:195-205 | a flag token reads as false exactly when it is `"false"`, the encoder writes only `"true"`/`"false"`, and each flag reads back as written |
| `SceneRestore.FirstIndex` | SceneAutoLoader/Assets/Editor/SceneAutoLoader.cs:139-140 | `Array.FindIndex`: -1 exactly when no scene matches, otherwise a matching index with no match before it |
| `SceneRestore.ActiveIndex` | SceneAutoLoader/Assets/Editor/SceneAutoLoader.cs:139 | -1 exactly when no scene is active, otherwise an active scene with no active scene before it |
| `SceneRestore.FirstLoadedIndex` | SceneAutoLoader/Assets/Editor/SceneAutoLoader.cs:140 | -1 exactly when no scene is loaded, otherwise a loaded scene with no loaded scene before it |
| `SceneRestore.Faults` | SceneAutoLoader/Assets/Editor/SceneAutoLoader.cs:139-145 | the workaround writes at index -1 exactly when some scene is loaded but none is active, or some scene is active but none is loaded |
| `SceneRestore.FindIndex` | SceneAutoLoader/Assets/Editor/SceneAutoLoader.cs:139-140 | the scan over the array returns the first matching index, or -1 |
| `SceneRestore.Normalise` | SceneAutoLoader/Assets/Editor/SceneAutoLoader.cs:142-146 | the workaround keeps the length, every path and every loaded flag, and changes no entry other than the first active and the first loaded |
| `SceneRestore.NormaliseMovesActive` | SceneAutoLoader/Assets/Editor/SceneAutoLoader.cs:139-146 | when both indices exist and differ, the first loaded scene becomes active and the previously active one is cleared |
| `SceneRestore.NormaliseKeepsAgreeingList` | SceneAutoLoader/Assets/Editor/SceneAutoLoader.cs:142 | when the two indices are equal, both -1 included, the list is unchanged and nothing throws |
| `SceneRestore.NormaliseChangesOnlyActiveFlags` | SceneAutoLoader/Assets/Editor/SceneAutoLoader.cs:142-146 | only `isActive` can change, and only at the first active or the first loaded index |
| `SceneRestore.FirstLoadedEndsActive` | SceneAutoLoader/Assets/Editor/SceneAutoLoader.cs:133-146 | whenever the workaround completes and a scene is loaded, the first loaded scene is active and is still the first loaded one |
| `SceneRestore.SingleActiveMovesToFirstLoaded` | SceneAutoLoader/Assets/Editor/SceneAutoLoader.cs:133-146 | with exactly one active scene and some loaded scene, nothing throws and exactly one scene is active afterwards: the first loaded one |
| `SceneRestore.SingleActiveNormaliseIdempotent` | SceneAutoLoader/Assets/Editor/SceneAutoLoader.cs:139-146 | under the same conditions a second application of the workaround changes nothing |
| `SceneRestore.LoadedButNoActiveFaults` | SceneAutoLoader/Assets/Editor/SceneAutoLoader.cs:139-145 | every list with a loaded scene but no active one faults, after the first write has marked the first loaded scene active |
| `SceneRestore.ActiveButNoLoadedFaults` | SceneAutoLoader/Assets/Editor/SceneAutoLoader.cs:139-144 | every list with an active scene but no loaded one faults before any write, leaving the list unchanged |
| `SceneRestore.SeparatorInPathFaults` | SceneAutoLoader/Assets/Editor/SceneAutoLoader.cs:139-145 | a hierarchy with one active scene, all scenes loaded and a path `a\|false` before the active scene is read back with no active scene, and the workaround faults on it |
| `SceneRestore.ShiftedRead` | SceneAutoLoader/Assets/Editor/SceneAutoLoader.cs:184-205 | that hierarchy reads back as two inactive, loaded scenes `a` and `true` |
| `SceneRestore.NormaliseActiveScene` | SceneAutoLoader/Assets/Editor/SceneAutoLoader.cs:139-146 | the in-place method finds both indices, leaves the array as the workaround specifies, and reports completion exactly when no index -1 is written |
| `AutoLoader.SceneAutoLoader.constructor` | SceneAutoLoader/Assets/Editor/SceneAutoLoader.cs:168-184 | unset preferences read as: loading off, master scene `Master.unity`, empty stored hierarchy |
| `AutoLoader.SceneAutoLoader.SetLoadMasterOnPlay` | SceneAutoLoader/Assets/Editor/SceneAutoLoader.cs:168-172 | the setter stores the flag, logs one write and changes nothing else |
| `AutoLoader.SceneAutoLoader.SetMasterScene` | SceneAutoLoader/Assets/Editor/SceneAutoLoader.cs:174-178 | the setter stores the path, logs one write and changes nothing else |
| `AutoLoader.SceneAutoLoader.SetScenesInHierarchyView` | SceneAutoLoader/Assets/Editor/SceneAutoLoader.cs:203-208 | the setter stores the encoding, which reads back as the list when no path contains `\|` |
| `AutoLoader.SceneAutoLoader.GetScenesInHierarchyView` | SceneAutoLoader/Assets/Editor/SceneAutoLoader.cs:182-201 | the getter returns a fresh array holding the decode of the stored string |
| `AutoLoader.SceneAutoLoader.SelectMasterScene` | SceneAutoLoader/Assets/Editor/SceneAutoLoader.cs:34-43 | a cancelled file panel changes nothing; a chosen file becomes the master scene and switches loading on |
| `AutoLoader.SceneAutoLoader.ShowLoadMasterOnPlay` | SceneAutoLoader/Assets/Editor/SceneAutoLoader.cs:45-49 | exactly one of the two menu items is enabled at any time |
| `AutoLoader.SceneAutoLoader.EnableLoadMasterOnPlay` | SceneAutoLoader/Assets/Editor/SceneAutoLoader.cs:45-54 | when the item is enabled, choosing it changes the flag; loading is switched on, after which only the "Don't Load" menu item is enabled |
| `AutoLoader.SceneAutoLoader.DisableLoadMasterOnPlay` | SceneAutoLoader/Assets/Editor/SceneAutoLoader.cs:56-65 | when the item is enabled, choosing it changes the flag; loading is switched off, after which only the "Load" menu item is enabled |
| `AutoLoader.SceneAutoLoader.OnPlayModeChanged` | SceneAutoLoader/Assets/Editor/SceneAutoLoader.cs:68-121 | on play the stored list is reset to empty and replaced by the current hierarchy only if loading is on, the master exists and the save is accepted; the editor is asked to open the master scene exactly then; a declined save or a failed open cancels play, the latter also scheduling a reload; on stop a reload is scheduled only if the stored list is non-empty |
| `AutoLoader.SceneAutoLoader.ReloadLastScene` | SceneAutoLoader/Assets/Editor/SceneAutoLoader.cs:123-161 | nothing happens while playing or where the workaround throws; otherwise the normalised list is restored, the original active index is re-activated if it moved, the stored list becomes empty and the reload is unscheduled |
| `AutoLoader.PlayStopReloadCycle` | SceneAutoLoader/Assets/Editor/SceneAutoLoader.cs:68-161 | play with loading on over a hierarchy with one active, loaded scene, then stop, then reload: the hierarchy comes back with the active flag on its first loaded scene, the original active scene is re-activated when the flag moved, the stored list ends empty and nothing stays scheduled |
| `AutoLoaderWindow.Options` | SceneAutoLoader/Assets/Editor/SceneAutoLoaderEditorWindow.cs:57 | the options are the placeholder followed by the n project scenes, n+1 in all |
| `AutoLoaderWindow.IndexOf` | SceneAutoLoader/Assets/Editor/SceneAutoLoaderEditorWindow.cs:61 | `Array.IndexOf`: -1 exactly when absent, otherwise the first index holding the value |
| `AutoLoaderWindow.PreselectedIndex` | SceneAutoLoader/Assets/Editor/SceneAutoLoaderEditorWindow.cs:59-61 | the preselected index lies in [0, n]; it is 0 exactly when the master scene is the placeholder or not a project scene, otherwise the first position of the master scene |
| `AutoLoaderWindow.PathOfIndex` | SceneAutoLoader/Assets/Editor/SceneAutoLoaderEditorWindow.cs:74-76 | index 0 (or below) maps to `""`, index i > 0 to the i-th project scene |
| `AutoLoaderWindow.Replace` | SceneAutoLoader/Assets/Editor/SceneAutoLoaderEditorWindow.cs:71 | `string.Replace` introduces only characters of its replacement and removes every occurrence of a one-character pattern the replacement lacks |
| `AutoLoaderWindow.ReplaceOneChar` | SceneAutoLoader/Assets/Editor/SceneAutoLoaderEditorWindow.cs:71 | `Replace("/", " ∕ ")` equals the character-by-character replacement of each `/`, every other character kept in order |
| `AutoLoaderWindow.DisplayName` | SceneAutoLoader/Assets/Editor/SceneAutoLoaderEditorWindow.cs:63-71 | no display name contains `/` |
| `AutoLoaderWindow.DisplayNames` | SceneAutoLoader/Assets/Editor/SceneAutoLoaderEditorWindow.cs:71 | one display name per option, none containing `/` |
| `AutoLoaderWindow.IndexPathIndex` | SceneAutoLoader/Assets/Editor/SceneAutoLoaderEditorWindow.cs:61-76 | with distinct paths, none equal to the placeholder, choosing index i > 0 and preselecting its path gives i back |
| `AutoLoaderWindow.PathIndexPath` | SceneAutoLoader/Assets/Editor/SceneAutoLoaderEditorWindow.cs:61-76 | preselecting the master scene and mapping back gives the master scene if it is a project scene, `""` otherwise |
| `AutoLoaderWindow.OnGUIActive` | SceneAutoLoader/Assets/Editor/SceneAutoLoaderEditorWindow.cs:38-48 | the toggle's value is returned and becomes the preference, which is written only when it changed |
| `AutoLoaderWindow.OnGUISelectMasterScene` | SceneAutoLoader/Assets/Editor/SceneAutoLoaderEditorWindow.cs:53-80 | the dropdown shows the display names with the master scene preselected; the chosen path becomes the master scene, written only when it changed |
| `AutoLoaderWindow.OnGUI` | SceneAutoLoader/Assets/Editor/SceneAutoLoaderEditorWindow.cs:38-88 | the master scene can change only when the Active toggle returns true; the toggle's write comes first and only on a change, and the master scene is written only when the toggle is on and the chosen path differs |
| `AssemblyReloadLock.DisableAssemblyReloadInPlayMode.constructor` | DisableAssemblyReloadInPlayMode/Assets/Editor/DisableAssemblyReloadInPlayMode.cs:6 | `Locked` starts false with no lock or unlock call made |
| `AssemblyReloadLock.DisableAssemblyReloadInPlayMode.OnPlaymodeStateChanged` | DisableAssemblyReloadInPlayMode/Assets/Editor/DisableAssemblyReloadInPlayMode.cs:13-25 | afterwards `Locked` equals `isPlaying` and lock calls minus unlock calls is 1 when locked, 0 otherwise; the lock is taken only on a change into playing and released only on a change out; an unchanged state makes no call |
| `AssemblyReloadLock.RepeatedCallbackIsInert` | DisableAssemblyReloadInPlayMode/Assets/Editor/DisableAssemblyReloadInPlayMode.cs:15-24 | a second callback with the same `isPlaying` makes no call, so the lock and unlock counts change only by the first callback's call |

## Left out

- Preference keys and `EditorPrefs`: the keys are built from `PlayerSettings.productName` (SceneAutoLoader.cs:164-166). Storage is host I/O, so each preference is a field of `SceneAutoLoader`, with its unset default in the constructor.
- Editor scene and asset calls are inputs or outputs. `AssetPathToGUID(MasterScene) != ""` is the input `masterExists`. `SaveCurrentModifiedScenesIfUserWantsTo` is `userSaved`, `GetSceneManagerSetup` is `hierarchy`, and `OpenScene(...).IsValid()` is `masterOpened`. What `ReloadLastScene` passes to `RestoreSceneManagerSetup` and the index it passes to `SetActiveScene(GetSceneAt(...))` are returned in `ReloadOutcome`. The project's scene list (`GetScenes`, `AssetDatabase.FindAssets`/`GUIDToAssetPath`) is the input `projectScenes`.
- `EditorApplication.isPlaying = false` is returned as `cancelledPlay`. The editor's play state itself is an input and is not modelled.
- Event wiring: the `playmodeStateChanged` subscriptions in both static constructors are not modelled, and the callbacks are plain methods. `EditorApplication.update += / -= ReloadLastScene` is the boolean `reloadScheduled`, so a delegate added twice counts once.
- `ReloadLastScene` may throw `IndexOutOfRangeException`. The editor then logs it and keeps calling the still-subscribed reload on every update. The model gives one `IndexOutOfRange` outcome that leaves the state as it was.
- The file panel (`EditorUtility.OpenFilePanel`) is the input `chosenFile`. `string.IsNullOrEmpty` is modelled for the empty string only, since there are no null strings in the model.
- `Init` (window construction), `Debug.Log` traces and `OnApplicationQuit` have no behaviour to model.
- GUI rendering: `EditorGUILayout.Toggle` and `Popup` are inputs. The popup's result is required to be at most the number of project scenes, since a larger index would make `scenes[newSelectedIndex]` throw.
- AutoLoaderWindow.Replace: its contract states only which characters the result can contain. The body defines C#'s left-to-right, non-overlapping replacement. `ReplaceOneChar` pins down the one-character case (`/`); the removal of `.unity` is not stated as a separate property.
- AutoLoaderWindow.DisplayName: states only that no `/` remains. The exact text (`/` as " ∕ ", `.unity` dropped) is given by its body.
