/** The workaround `ReloadLastScene` applies to a stored scene list before
    handing it back to the editor: the first loaded scene is made the
    active one, because the editor does not load a first loaded scene
    that is not active. The list is a fresh array changed in place. */
module SceneRestore {
  import opened SceneCodec

  predicate IsActiveScene(scene: SceneSetup) { scene.isActive }

  predicate IsLoadedScene(scene: SceneSetup) { scene.isLoaded }

  /** `Array.FindIndex`: the first index whose scene satisfies `p`, or -1
      when none does. */
  function FirstIndex(scenes: seq<SceneSetup>, p: SceneSetup -> bool): (r: int)
    ensures -1 <= r < |scenes|
    ensures r == -1 <==> forall j :: 0 <= j < |scenes| ==> !p(scenes[j])
    ensures 0 <= r ==> p(scenes[r]) && forall j :: 0 <= j < r ==> !p(scenes[j])
  {
    if |scenes| == 0 then -1
    else if p(scenes[0]) then 0
    else
      var k := FirstIndex(scenes[1..], p);
      if k == -1 then -1 else k + 1
  }

  /** Index of the first active scene, -1 when there is none. */
  function ActiveIndex(scenes: seq<SceneSetup>): (r: int)
    ensures -1 <= r < |scenes|
    ensures r == -1 <==> forall j :: 0 <= j < |scenes| ==> !scenes[j].isActive
    ensures 0 <= r ==> scenes[r].isActive && forall j :: 0 <= j < r ==> !scenes[j].isActive
  {
    FirstIndex(scenes, IsActiveScene)
  }

  /** Index of the first loaded scene, -1 when there is none. */
  function FirstLoadedIndex(scenes: seq<SceneSetup>): (r: int)
    ensures -1 <= r < |scenes|
    ensures r == -1 <==> forall j :: 0 <= j < |scenes| ==> !scenes[j].isLoaded
    ensures 0 <= r ==> scenes[r].isLoaded && forall j :: 0 <= j < r ==> !scenes[j].isLoaded
  {
    FirstIndex(scenes, IsLoadedScene)
  }

  /** The two indices differ and one of them is -1: the workaround then
      indexes the array at -1 and raises `IndexOutOfRangeException`. That
      happens exactly when some scene is loaded but none is active, or some
      scene is active but none is loaded. */
  predicate Faults(scenes: seq<SceneSetup>)
    ensures Faults(scenes) <==>
              ((exists j :: 0 <= j < |scenes| && scenes[j].isLoaded) && (forall j :: 0 <= j < |scenes| ==> !scenes[j].isActive))
              || ((exists j :: 0 <= j < |scenes| && scenes[j].isActive) && (forall j :: 0 <= j < |scenes| ==> !scenes[j].isLoaded))
  {
    var a, l := ActiveIndex(scenes), FirstLoadedIndex(scenes);
    a != l && (a < 0 || l < 0)
  }

  /** The list after the workaround's two writes. When the indices differ,
      the first loaded scene is marked active and then the first active
      one is cleared; a write at index -1 throws, so on a fault the list
      is as far as the writes got: unchanged when no scene is loaded, and
      with only the first write done when no scene is active. */
  function Normalise(scenes: seq<SceneSetup>): (r: seq<SceneSetup>)
    ensures |r| == |scenes|
    ensures forall j :: 0 <= j < |r| ==> r[j].path == scenes[j].path && r[j].isLoaded == scenes[j].isLoaded
    ensures forall j :: 0 <= j < |r| && j != ActiveIndex(scenes) && j != FirstLoadedIndex(scenes) ==> r[j] == scenes[j]
  {
    var a, l := ActiveIndex(scenes), FirstLoadedIndex(scenes);
    if a == l || l < 0 then scenes
    else if a < 0 then scenes[l := scenes[l].(isActive := true)]
    else scenes[l := scenes[l].(isActive := true)][a := scenes[a].(isActive := false)]
  }

  /** When both indices exist and differ, the first loaded scene ends up
      active and the previously active one does not. */
  lemma NormaliseMovesActive(scenes: seq<SceneSetup>)
    requires 0 <= ActiveIndex(scenes) && 0 <= FirstLoadedIndex(scenes)
    requires ActiveIndex(scenes) != FirstLoadedIndex(scenes)
    ensures !Faults(scenes)
    ensures Normalise(scenes)[FirstLoadedIndex(scenes)].isActive
    ensures !Normalise(scenes)[ActiveIndex(scenes)].isActive
  {
  }

  /** When the two indices agree, both -1 included, nothing changes. */
  lemma NormaliseKeepsAgreeingList(scenes: seq<SceneSetup>)
    requires ActiveIndex(scenes) == FirstLoadedIndex(scenes)
    ensures !Faults(scenes)
    ensures Normalise(scenes) == scenes
  {
  }

  /** At most the two `isActive` flags at the found indices change. */
  lemma NormaliseChangesOnlyActiveFlags(scenes: seq<SceneSetup>, j: nat)
    requires j < |scenes|
    ensures Normalise(scenes)[j] == scenes[j].(isActive := Normalise(scenes)[j].isActive)
    ensures Normalise(scenes)[j].isActive != scenes[j].isActive ==>
              j == ActiveIndex(scenes) || j == FirstLoadedIndex(scenes)
  {
  }

  /** The purpose of the workaround: whenever it completes and some scene
      is loaded, the first loaded scene is active and is still the first
      loaded one. */
  lemma FirstLoadedEndsActive(scenes: seq<SceneSetup>)
    requires !Faults(scenes) && FirstLoadedIndex(scenes) >= 0
    ensures Normalise(scenes)[FirstLoadedIndex(scenes)].isActive
    ensures FirstLoadedIndex(Normalise(scenes)) == FirstLoadedIndex(scenes)
  {
    var r, l := Normalise(scenes), FirstLoadedIndex(scenes);
    assert forall j :: 0 <= j < |r| ==> (IsLoadedScene(r[j]) <==> IsLoadedScene(scenes[j]));
    FirstIndexAgrees(scenes, r, IsLoadedScene);
  }

  /** Two lists that agree on `p` at every index have the same first
      index for `p`. */
  lemma {:induction false} FirstIndexAgrees(s: seq<SceneSetup>, t: seq<SceneSetup>, p: SceneSetup -> bool)
    requires |s| == |t|
    requires forall j :: 0 <= j < |s| ==> (p(s[j]) <==> p(t[j]))
    ensures FirstIndex(s, p) == FirstIndex(t, p)
  {
    if |s| > 0 && !p(s[0]) {
      FirstIndexAgrees(s[1..], t[1..], p);
    }
  }

  /** With exactly one active scene, as the editor's own scene setups have,
      and at least one loaded scene, the workaround never faults and leaves
      exactly one active scene: the first loaded one. */
  lemma SingleActiveMovesToFirstLoaded(scenes: seq<SceneSetup>, k: nat)
    requires k < |scenes|
    requires forall j :: 0 <= j < |scenes| ==> (scenes[j].isActive <==> j == k)
    requires exists j :: 0 <= j < |scenes| && scenes[j].isLoaded
    ensures !Faults(scenes)
    ensures forall j :: 0 <= j < |scenes| ==> (Normalise(scenes)[j].isActive <==> j == FirstLoadedIndex(scenes))
  {
    assert IsActiveScene(scenes[k]);
    var a := ActiveIndex(scenes);
    assert a == k by {
      assert a != -1;
      assert IsActiveScene(scenes[a]);
    }
    var l := FirstLoadedIndex(scenes);
    assert l != -1 by {
      var w :| 0 <= w < |scenes| && scenes[w].isLoaded;
      assert IsLoadedScene(scenes[w]);
    }
  }

  /** Under the same conditions the workaround is idempotent: a second
      application changes nothing. */
  lemma SingleActiveNormaliseIdempotent(scenes: seq<SceneSetup>, k: nat)
    requires k < |scenes|
    requires forall j :: 0 <= j < |scenes| ==> (scenes[j].isActive <==> j == k)
    requires exists j :: 0 <= j < |scenes| && scenes[j].isLoaded
    ensures Normalise(Normalise(scenes)) == Normalise(scenes)
  {
    SingleActiveMovesToFirstLoaded(scenes, k);
    FirstLoadedEndsActive(scenes);
    var r, l := Normalise(scenes), FirstLoadedIndex(scenes);
    SingleActiveMovesToFirstLoaded(r, l);
    assert IsActiveScene(r[l]);
    var a := ActiveIndex(r);
    assert a == l by {
      assert a != -1;
      assert IsActiveScene(r[a]);
    }
    NormaliseKeepsAgreeingList(r);
  }

  /** A stored list with a loaded scene but no active one makes the
      workaround fault, after its first write: the first loaded scene is
      marked active. */
  lemma LoadedButNoActiveFaults(scenes: seq<SceneSetup>)
    requires exists j :: 0 <= j < |scenes| && scenes[j].isLoaded
    requires forall j :: 0 <= j < |scenes| ==> !scenes[j].isActive
    ensures Faults(scenes)
    ensures Normalise(scenes) == scenes[FirstLoadedIndex(scenes) := scenes[FirstLoadedIndex(scenes)].(isActive := true)]
  {
  }

  /** A stored list with an active scene but no loaded one makes the
      workaround fault before any write: the list is unchanged. */
  lemma ActiveButNoLoadedFaults(scenes: seq<SceneSetup>)
    requires exists j :: 0 <= j < |scenes| && scenes[j].isActive
    requires forall j :: 0 <= j < |scenes| ==> !scenes[j].isLoaded
    ensures Faults(scenes)
    ensures Normalise(scenes) == scenes
  {
  }

  /** A scene path holding the separator is enough to reach the fault: a
      list of two loaded scenes whose active one comes second is read back
      with its active flag lost, since the path `a|false` splits into two
      tokens and shifts every later token by one. */
  lemma SeparatorInPathFaults(scenes: seq<SceneSetup>)
    requires scenes == [SceneSetup(false, true, "a|false"), SceneSetup(true, true, "b")]
    ensures Faults(Decode(Encode(scenes)))
  {
    ShiftedRead(scenes, ["false", "true", "a", "false", "true", "true", "b"]);
    var decoded := Decode(Encode(scenes));
    assert decoded[0].isLoaded;
    LoadedButNoActiveFaults(decoded);
  }

  /** That list is read back from the tokens its stored text splits into. */
  lemma ShiftedRead(scenes: seq<SceneSetup>, tokens: seq<string>)
    requires scenes == [SceneSetup(false, true, "a|false"), SceneSetup(true, true, "b")]
    requires tokens == ["false", "true", "a", "false", "true", "true", "b"]
    ensures Decode(Encode(scenes)) == [SceneSetup(false, true, "a"), SceneSetup(false, true, "true")]
  {
    ShiftedEncoding(tokens);
    SplitJoin(tokens, Separator);
    ShiftedDecoding(tokens);
  }

  /** The stored text of that list, as the tokens it splits into. */
  lemma ShiftedEncoding(tokens: seq<string>)
    requires tokens == ["false", "true", "a", "false", "true", "true", "b"]
    ensures Encode([SceneSetup(false, true, "a|false"), SceneSetup(true, true, "b")]) == Join(tokens, Separator)
  {
    var scenes := [SceneSetup(false, true, "a|false"), SceneSetup(true, true, "b")];
    EncodeJoinsTokens(scenes);
    assert Tokens(scenes) == ["false", "true", "a|false", "true", "true", "b"];
    assert "a" + [Separator] + "false" == "a|false";
    JoinSplitsToken(["false", "true"], "a", "false", ["true", "true", "b"], Separator);
    assert ["false", "true"] + ["a" + [Separator] + "false"] + ["true", "true", "b"] == Tokens(scenes);
    assert ["false", "true"] + ["a", "false"] + ["true", "true", "b"] == tokens;
  }

  /** Those tokens decode to two inactive scenes; the last token is left
      over. */
  lemma ShiftedDecoding(tokens: seq<string>)
    requires tokens == ["false", "true", "a", "false", "true", "true", "b"]
    ensures DecodeTokens(tokens) == [SceneSetup(false, true, "a"), SceneSetup(false, true, "true")]
  {
    assert DecodeTokens(tokens[6..]) == [];
    assert DecodeTokens(tokens[3..]) == [SceneSetup(false, true, "true")];
  }

  /** `Array.FindIndex` over the array: a scan from the front. */
  method FindIndex(scenes: array<SceneSetup>, p: SceneSetup -> bool) returns (index: int)
    ensures index == FirstIndex(scenes[..], p)
  {
    index := 0;
    while index < scenes.Length
      invariant 0 <= index <= scenes.Length
      invariant forall j :: 0 <= j < index ==> !p(scenes[j])
    {
      if p(scenes[index]) {
        return;
      }
      index := index + 1;
    }
    index := -1;
  }

  /** Lines 139-146 of `ReloadLastScene`: find the first active and the
      first loaded scene and, when they differ, move the active flag to
      the first loaded scene. `completed` is false where the source throws
      `IndexOutOfRangeException`. */
  method NormaliseActiveScene(scenes: array<SceneSetup>) returns (activeIndex: int, firstLoadedIndex: int, completed: bool)
    modifies scenes
    ensures activeIndex == ActiveIndex(old(scenes[..]))
    ensures firstLoadedIndex == FirstLoadedIndex(old(scenes[..]))
    ensures completed == !Faults(old(scenes[..]))
    ensures scenes[..] == Normalise(old(scenes[..]))
  {
    activeIndex := FindIndex(scenes, IsActiveScene);
    firstLoadedIndex := FindIndex(scenes, IsLoadedScene);
    completed := true;
    if activeIndex != firstLoadedIndex {
      if firstLoadedIndex < 0 {
        completed := false;
        return;
      }
      scenes[firstLoadedIndex] := scenes[firstLoadedIndex].(isActive := true);
      if activeIndex < 0 {
        completed := false;
        return;
      }
      scenes[activeIndex] := scenes[activeIndex].(isActive := false);
    }
  }
}
