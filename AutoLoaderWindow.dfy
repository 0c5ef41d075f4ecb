/** The inspector window of the scene auto-loader: an "Active" toggle for
    loading the master scene on play and, while it is on, a dropdown of
    the project's scenes for choosing the master scene. The widgets'
    return values and the project's scene list are inputs. */
module AutoLoaderWindow {
  import opened AutoLoader

  /** The dropdown's first entry, standing for "no master scene". */
  const NoSceneChosen: string := "<No scene chosen>"

  /** The display text that replaces each `/` so the dropdown does not
      split into sub-menus: a space, U+2215 DIVISION SLASH, a space. */
  const DivisionSlash: string := " \U{2215} "

  /** The dropdown's options: the placeholder, then the project's scenes. */
  function Options(projectScenes: seq<string>): (options: seq<string>)
    ensures |options| == |projectScenes| + 1
    ensures options[0] == NoSceneChosen && options[1..] == projectScenes
  {
    [NoSceneChosen] + projectScenes
  }

  /** `Array.IndexOf`: the first index holding `x`, or -1 when none does. */
  function IndexOf(a: seq<string>, x: string): (r: int)
    ensures -1 <= r < |a|
    ensures r == -1 <==> x !in a
    ensures 0 <= r ==> a[r] == x && x !in a[..r]
  {
    if |a| == 0 then -1
    else if a[0] == x then 0
    else
      var k := IndexOf(a[1..], x);
      assert a[1..][..if k < 0 then 0 else k] == a[1..if k < 0 then 1 else k + 1];
      if k < 0 then -1 else k + 1
  }

  /** The option preselected for the current master scene: its position
      among the options, or the placeholder's 0 when it is not among them. */
  function PreselectedIndex(projectScenes: seq<string>, masterScene: string): (index: int)
    ensures 0 <= index <= |projectScenes|
    ensures index == 0 <==> masterScene == NoSceneChosen || masterScene !in projectScenes
    ensures index > 0 ==> projectScenes[index - 1] == masterScene && masterScene !in projectScenes[..index - 1]
  {
    var options := Options(projectScenes);
    var found := IndexOf(options, masterScene);
    assert found > 0 ==> options[1..found] == projectScenes[..found - 1];
    if found > 0 then found else 0
  }

  /** The master-scene path an option index stands for: `""` for the
      placeholder (or any index below it), the scene's path otherwise. */
  function PathOfIndex(projectScenes: seq<string>, selected: int): (path: string)
    requires selected <= |projectScenes|
    ensures selected <= 0 ==> path == ""
    ensures selected > 0 ==> path == projectScenes[selected - 1]
  {
    var options := Options(projectScenes);
    if selected > 0 then options[selected] else ""
  }

  /** `s.Replace(pattern, replacement)`: every occurrence of `pattern`,
      found left to right without overlaps, is replaced. The result holds
      only characters of `s` or of `replacement`, and none of a
      one-character pattern that the replacement does not hold. */
  function Replace(s: string, pattern: string, replacement: string): (r: string)
    requires |pattern| > 0
    ensures forall c :: c in r ==> c in s || c in replacement
    ensures |pattern| == 1 && pattern[0] !in replacement ==> pattern[0] !in r
    decreases |s|
  {
    if |s| < |pattern| then s
    else if s[..|pattern|] == pattern then
      var rest := Replace(s[|pattern|..], pattern, replacement);
      assert forall c :: c in s[|pattern|..] ==> c in s;
      replacement + rest
    else
      var rest := Replace(s[1..], pattern, replacement);
      assert forall c :: c in s[1..] ==> c in s;
      [s[0]] + rest
  }

  /** Replacing one character, character by character: each `c` becomes
      `replacement` and every other character stays as it is. */
  function ReplaceEachChar(s: string, c: char, replacement: string): string
  {
    if |s| == 0 then ""
    else (if s[0] == c then replacement else [s[0]]) + ReplaceEachChar(s[1..], c, replacement)
  }

  /** With a one-character pattern, `Replace` is the character-by-character
      replacement. */
  lemma {:induction false} ReplaceOneChar(s: string, c: char, replacement: string)
    ensures Replace(s, [c], replacement) == ReplaceEachChar(s, c, replacement)
  {
    if |s| > 0 {
      assert s[..1] == [s[0]];
      ReplaceOneChar(s[1..], c, replacement);
    }
  }

  /** How an option is shown: each `/` becomes a division slash with
      spaces, and `.unity` is removed; no `/` is left. */
  function DisplayName(option: string): (name: string)
    ensures '/' !in name
  {
    Replace(Replace(option, "/", DivisionSlash), ".unity", "")
  }

  /** The dropdown's labels: one per option, none holding `/`. */
  function DisplayNames(options: seq<string>): (names: seq<string>)
    ensures |names| == |options|
    ensures forall i :: 0 <= i < |names| ==> names[i] == DisplayName(options[i]) && '/' !in names[i]
  {
    seq(|options|, i requires 0 <= i < |options| => DisplayName(options[i]))
  }

  /** With distinct scene paths, none equal to the placeholder, choosing an
      option and preselecting its path again gives back the same option. */
  lemma IndexPathIndex(projectScenes: seq<string>, selected: int)
    requires forall i, j :: 0 <= i < j < |projectScenes| ==> projectScenes[i] != projectScenes[j]
    requires NoSceneChosen !in projectScenes
    requires 0 < selected <= |projectScenes|
    ensures PreselectedIndex(projectScenes, PathOfIndex(projectScenes, selected)) == selected
  {
    var path := PathOfIndex(projectScenes, selected);
    var index := PreselectedIndex(projectScenes, path);
    assert projectScenes[selected - 1] == path;
    assert projectScenes[index - 1] == path;
  }

  /** Preselecting the current master scene and mapping the option back
      gives the master scene when it is a project scene, and `""`
      otherwise. */
  lemma PathIndexPath(projectScenes: seq<string>, masterScene: string)
    ensures PathOfIndex(projectScenes, PreselectedIndex(projectScenes, masterScene))
         == if masterScene in projectScenes && masterScene != NoSceneChosen then masterScene else ""
  {
  }

  /** The "Active" toggle: `toggled` is what the toggle returned, starting
      from the current preference. The preference is written only when
      the value changed, and the toggle's value is returned. */
  method OnGUIActive(loader: SceneAutoLoader, toggled: bool) returns (isActive: bool)
    modifies loader
    ensures isActive == toggled && loader.loadMasterOnPlay == toggled
    ensures loader.writes == old(loader.writes)
              + (if toggled != old(loader.loadMasterOnPlay) then [LoadMasterOnPlayWrite(toggled)] else [])
    ensures loader.masterScene == old(loader.masterScene) && loader.loadedScenes == old(loader.loadedScenes)
    ensures loader.reloadScheduled == old(loader.reloadScheduled)
  {
    var previousLoadMasterOnPlay := loader.loadMasterOnPlay;
    if toggled != previousLoadMasterOnPlay {
      loader.SetLoadMasterOnPlay(toggled);
    }
    isActive := toggled;
  }

  /** The master-scene dropdown over the project's scenes. It shows the
      options' display names with the current master scene preselected,
      and `selected` is what the dropdown returned. The master scene is
      written only when the chosen path differs from it. */
  method OnGUISelectMasterScene(loader: SceneAutoLoader, projectScenes: seq<string>, selected: int)
    returns (shownIndex: int, shownNames: seq<string>)
    requires selected <= |projectScenes|
    modifies loader
    ensures shownIndex == PreselectedIndex(projectScenes, old(loader.masterScene))
    ensures shownNames == DisplayNames(Options(projectScenes))
    ensures loader.masterScene == PathOfIndex(projectScenes, selected)
    ensures loader.writes == old(loader.writes)
              + (if PathOfIndex(projectScenes, selected) != old(loader.masterScene)
                 then [MasterSceneWrite(PathOfIndex(projectScenes, selected))] else [])
    ensures loader.loadMasterOnPlay == old(loader.loadMasterOnPlay) && loader.loadedScenes == old(loader.loadedScenes)
    ensures loader.reloadScheduled == old(loader.reloadScheduled)
  {
    var previousMasterScene := loader.masterScene;
    var scenes := Options(projectScenes);
    shownIndex := PreselectedIndex(projectScenes, previousMasterScene);
    shownNames := DisplayNames(scenes);
    var newMasterScene := if selected > 0 then scenes[selected] else "";
    if newMasterScene != previousMasterScene {
      loader.SetMasterScene(newMasterScene);
    }
  }

  /** The window: the dropdown is shown, and can change the master scene,
      only while the "Active" toggle is on. Each preference is written only
      when its value changed, the toggle's first. */
  method OnGUI(loader: SceneAutoLoader, toggled: bool, projectScenes: seq<string>, selected: int)
    requires selected <= |projectScenes|
    modifies loader
    ensures loader.loadMasterOnPlay == toggled
    ensures !toggled ==> loader.masterScene == old(loader.masterScene)
    ensures toggled ==> loader.masterScene == PathOfIndex(projectScenes, selected)
    ensures loader.writes == old(loader.writes)
              + (if toggled != old(loader.loadMasterOnPlay) then [LoadMasterOnPlayWrite(toggled)] else [])
              + (if toggled && PathOfIndex(projectScenes, selected) != old(loader.masterScene)
                 then [MasterSceneWrite(PathOfIndex(projectScenes, selected))] else [])
    ensures loader.loadedScenes == old(loader.loadedScenes) && loader.reloadScheduled == old(loader.reloadScheduled)
  {
    var isActive := OnGUIActive(loader, toggled);
    if isActive {
      var _, _ := OnGUISelectMasterScene(loader, projectScenes, selected);
    }
  }
}
