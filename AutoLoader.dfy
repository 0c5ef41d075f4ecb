/** The scene auto-loader: three persisted editor preferences (whether to
    load the master scene on play, the master scene's path, and the stored
    scene hierarchy), the menu items that set them, and the play-mode
    callback that swaps in the master scene on play and restores the
    previous hierarchy on stop.

    The preference store is the object's fields; every preference write
    is also appended to the ghost log `writes`. What the editor answers
    (play-mode flags, whether the master scene exists, whether the user
    saved, whether the master scene opened, the current hierarchy) is
    passed in; what the callback asks of the editor is returned. */
module AutoLoader {
  import opened SceneCodec
  import opened SceneRestore

  /** One write to the preference store. */
  datatype PrefWrite =
    | LoadMasterOnPlayWrite(value: bool)
    | MasterSceneWrite(path: string)
    | LoadedScenesWrite(encoded: string)

  /** What `ReloadLastScene` did: returned at once because the editor is
      still playing; restored `setup` and then re-activated the scene at
      `reactivate` (-1: no re-activation); or threw
      `IndexOutOfRangeException` in the active-scene workaround. */
  datatype ReloadOutcome =
    | StillPlaying
    | Restored(setup: seq<SceneSetup>, reactivate: int)
    | IndexOutOfRange

  /** The default of the master-scene preference when it is unset. */
  const DefaultMasterScene: string := "Master.unity"

  class SceneAutoLoader {
    /** Preference `LoadMasterOnPlay`, default false. */
    var loadMasterOnPlay: bool
    /** Preference `MasterScene`, default `DefaultMasterScene`. */
    var masterScene: string
    /** Preference `LoadedScenes`: the encoded scene hierarchy, default `""`. */
    var loadedScenes: string
    /** Whether `ReloadLastScene` is subscribed to the editor's update loop. */
    var reloadScheduled: bool
    /** Every preference write, in order. */
    ghost var writes: seq<PrefWrite>

    /** All preferences unset, nothing scheduled. */
    constructor ()
      ensures !loadMasterOnPlay && masterScene == DefaultMasterScene && loadedScenes == ""
      ensures !reloadScheduled && writes == []
      ensures StoredScenes() == []
    {
      loadMasterOnPlay := false;
      masterScene := DefaultMasterScene;
      loadedScenes := "";
      reloadScheduled := false;
      writes := [];
      EmptyList();
    }

    /** The stored scene hierarchy as the getter reads it. */
    ghost function StoredScenes(): seq<SceneSetup>
      reads this
    {
      Decode(loadedScenes)
    }

    /** Setter of `LoadMasterOnPlay`. */
    method SetLoadMasterOnPlay(value: bool)
      modifies this
      ensures loadMasterOnPlay == value
      ensures masterScene == old(masterScene) && loadedScenes == old(loadedScenes)
      ensures reloadScheduled == old(reloadScheduled)
      ensures writes == old(writes) + [LoadMasterOnPlayWrite(value)]
    {
      loadMasterOnPlay := value;
      writes := writes + [LoadMasterOnPlayWrite(value)];
    }

    /** Setter of `MasterScene`. */
    method SetMasterScene(value: string)
      modifies this
      ensures masterScene == value
      ensures loadMasterOnPlay == old(loadMasterOnPlay) && loadedScenes == old(loadedScenes)
      ensures reloadScheduled == old(reloadScheduled)
      ensures writes == old(writes) + [MasterSceneWrite(value)]
    {
      masterScene := value;
      writes := writes + [MasterSceneWrite(value)];
    }

    /** Setter of `ScenesInHierarchyView`: stores the encoding of `value`,
      which reads back as `value` when no path holds the separator. */
    method SetScenesInHierarchyView(value: seq<SceneSetup>)
      modifies this
      ensures loadedScenes == Encode(value)
      ensures PathsWithoutSeparator(value) ==> StoredScenes() == value
      ensures loadMasterOnPlay == old(loadMasterOnPlay) && masterScene == old(masterScene)
      ensures reloadScheduled == old(reloadScheduled)
      ensures writes == old(writes) + [LoadedScenesWrite(Encode(value))]
    {
      loadedScenes := Encode(value);
      writes := writes + [LoadedScenesWrite(loadedScenes)];
      if PathsWithoutSeparator(value) {
        DecodeEncode(value);
      }
    }

    /** Getter of `ScenesInHierarchyView`: a fresh array decoded from the
      stored string. */
    method GetScenesInHierarchyView() returns (scenes: array<SceneSetup>)
      ensures fresh(scenes)
      ensures scenes[..] == StoredScenes()
    {
      scenes := DecodeScenes(loadedScenes);
    }

    /** Menu item "Select Master Scene...": `chosenFile` is what the file
      panel returned, `""` when the user cancelled. A chosen file becomes
      the master scene and switches loading on. */
    method SelectMasterScene(chosenFile: string)
      modifies this
      ensures chosenFile == "" ==> unchanged(this)
      ensures chosenFile != "" ==> masterScene == chosenFile && loadMasterOnPlay
      ensures chosenFile != "" ==> writes == old(writes) + [MasterSceneWrite(chosenFile), LoadMasterOnPlayWrite(true)]
      ensures loadedScenes == old(loadedScenes) && reloadScheduled == old(reloadScheduled)
    {
      if chosenFile != "" {
        SetMasterScene(chosenFile);
        SetLoadMasterOnPlay(true);
      }
    }

    /** Whether menu item "Load Master On Play" is enabled: exactly one of
      the two menu items is enabled at any time. */
    predicate ShowLoadMasterOnPlay()
      reads this
      ensures ShowLoadMasterOnPlay() <==> !ShowDontLoadMasterOnPlay()
    {
      !loadMasterOnPlay
    }

    /** Whether menu item "Don't Load Master On Play" is enabled. */
    predicate ShowDontLoadMasterOnPlay()
      reads this
    {
      loadMasterOnPlay
    }

    /** Menu item "Load Master On Play": when it is enabled, choosing it
      changes the flag; afterwards only the opposite menu item is enabled. */
    method EnableLoadMasterOnPlay()
      modifies this
      ensures old(ShowLoadMasterOnPlay()) ==> loadMasterOnPlay != old(loadMasterOnPlay)
      ensures loadMasterOnPlay
      ensures !ShowLoadMasterOnPlay() && ShowDontLoadMasterOnPlay()
      ensures masterScene == old(masterScene) && loadedScenes == old(loadedScenes)
      ensures reloadScheduled == old(reloadScheduled)
      ensures writes == old(writes) + [LoadMasterOnPlayWrite(true)]
    {
      SetLoadMasterOnPlay(true);
    }

    /** Menu item "Don't Load Master On Play": when it is enabled, choosing
      it changes the flag; afterwards only the opposite menu item is
      enabled. */
    method DisableLoadMasterOnPlay()
      modifies this
      ensures old(ShowDontLoadMasterOnPlay()) ==> loadMasterOnPlay != old(loadMasterOnPlay)
      ensures !loadMasterOnPlay
      ensures ShowLoadMasterOnPlay() && !ShowDontLoadMasterOnPlay()
      ensures masterScene == old(masterScene) && loadedScenes == old(loadedScenes)
      ensures reloadScheduled == old(reloadScheduled)
      ensures writes == old(writes) + [LoadMasterOnPlayWrite(false)]
    {
      SetLoadMasterOnPlay(false);
    }

    /** The play-mode callback. The editor's answers are inputs: its two
      play-mode flags, whether the master scene's path has an asset GUID in
      this project, whether the user saved (or had nothing to save) when
      asked, the current scene hierarchy, and whether opening the master
      scene gave a valid scene. `openSceneCalled` says the editor was asked
      to open the master scene; `cancelledPlay` that play was cancelled.

      On pressing play the stored hierarchy is reset to empty, and replaced
      by the current one only when loading is on, the master scene exists
      and the user saved; a declined save or a master scene that did not
      open cancels play, and the latter also schedules a reload. On
      pressing stop a reload is scheduled when the stored hierarchy is not
      empty. */
    method OnPlayModeChanged(isPlaying: bool, isPlayingOrWillChangePlaymode: bool, masterExists: bool,
                             userSaved: bool, hierarchy: seq<SceneSetup>, masterOpened: bool)
      returns (openSceneCalled: bool, cancelledPlay: bool)
      modifies this
      ensures var pressedPlay := !isPlaying && isPlayingOrWillChangePlaymode;
              var proceed := pressedPlay && old(loadMasterOnPlay) && masterExists && userSaved;
              && openSceneCalled == proceed
              && cancelledPlay == (pressedPlay && old(loadMasterOnPlay) && masterExists && (!userSaved || !masterOpened))
              && loadedScenes == (if proceed then Encode(hierarchy) else if pressedPlay then "" else old(loadedScenes))
              && writes == old(writes) + (if pressedPlay then [LoadedScenesWrite("")] else [])
                                       + (if proceed then [LoadedScenesWrite(Encode(hierarchy))] else [])
              && (pressedPlay && !proceed ==> StoredScenes() == [])
              && (proceed && PathsWithoutSeparator(hierarchy) ==> StoredScenes() == hierarchy)
      ensures var pressedPlay := !isPlaying && isPlayingOrWillChangePlaymode;
              var pressedStop := isPlaying && !isPlayingOrWillChangePlaymode;
              var proceed := pressedPlay && old(loadMasterOnPlay) && masterExists && userSaved;
              reloadScheduled == (old(reloadScheduled) || (proceed && !masterOpened)
                                  || (pressedStop && |old(StoredScenes())| != 0))
      ensures loadMasterOnPlay == old(loadMasterOnPlay) && masterScene == old(masterScene)
    {
      openSceneCalled, cancelledPlay := false, false;
      if !isPlaying && isPlayingOrWillChangePlaymode {
        SetScenesInHierarchyView([]);
        EmptyList();
        if loadMasterOnPlay && masterExists {
          if userSaved {
            SetScenesInHierarchyView(hierarchy);
            openSceneCalled := true;
            if !masterOpened {
              cancelledPlay := true;
              reloadScheduled := true;
            }
          } else {
            cancelledPlay := true;
          }
        }
      }
      if isPlaying && !isPlayingOrWillChangePlaymode {
        var scenes := GetScenesInHierarchyView();
        if scenes.Length != 0 {
          reloadScheduled := true;
        }
      }
    }

    /** The scheduled reload. While the editor is still playing it returns
      at once. Otherwise it decodes the stored hierarchy, applies the
      active-scene workaround, hands the result to the editor and, when
      the workaround moved the active flag, re-activates the originally
      active scene; then it clears the stored hierarchy and unsubscribes.
      Where the workaround throws, nothing after it happens: the stored
      hierarchy stays and the reload stays subscribed. */
    method ReloadLastScene(isPlaying: bool) returns (outcome: ReloadOutcome)
      modifies this
      ensures isPlaying ==> outcome == StillPlaying && unchanged(this)
      ensures !isPlaying && Faults(old(StoredScenes())) ==> outcome == IndexOutOfRange && unchanged(this)
      ensures !isPlaying && !Faults(old(StoredScenes())) ==>
                var stored := old(StoredScenes());
                && outcome == Restored(Normalise(stored),
                                       if ActiveIndex(stored) != FirstLoadedIndex(stored) then ActiveIndex(stored) else -1)
                && loadedScenes == "" && StoredScenes() == []
                && !reloadScheduled
                && writes == old(writes) + [LoadedScenesWrite("")]
      ensures loadMasterOnPlay == old(loadMasterOnPlay) && masterScene == old(masterScene)
    {
      if isPlaying {
        return StillPlaying;
      }
      var scenes := GetScenesInHierarchyView();
      var activeSceneIndex, firstLoadedSceneIndex, completed := NormaliseActiveScene(scenes);
      if !completed {
        return IndexOutOfRange;
      }
      var setup := scenes[..];
      var reactivate := if activeSceneIndex != firstLoadedSceneIndex then activeSceneIndex else -1;
      SetScenesInHierarchyView([]);
      EmptyList();
      reloadScheduled := false;
      outcome := Restored(setup, reactivate);
    }
  }

  /** A full play-and-stop cycle with loading on, over a hierarchy as the
    editor reports it: exactly one active scene, and that scene loaded.
    The hierarchy stored on play is scheduled for reload on stop; the
    reload hands back the hierarchy with the active flag moved to its
    first loaded scene, asks to re-activate the original active scene
    when that moved the flag, and leaves the stored hierarchy empty. */
  method PlayStopReloadCycle(loader: SceneAutoLoader, hierarchy: seq<SceneSetup>, k: nat)
    returns (outcome: ReloadOutcome)
    requires loader.loadMasterOnPlay && !loader.reloadScheduled
    requires PathsWithoutSeparator(hierarchy)
    requires k < |hierarchy| && hierarchy[k].isLoaded
    requires forall j :: 0 <= j < |hierarchy| ==> (hierarchy[j].isActive <==> j == k)
    modifies loader
    ensures outcome == Restored(Normalise(hierarchy), if k != FirstLoadedIndex(hierarchy) then k else -1)
    ensures loader.StoredScenes() == [] && !loader.reloadScheduled
  {
    var didOpen, cancelled := loader.OnPlayModeChanged(false, true, true, true, hierarchy, true);
    assert didOpen && !cancelled && loader.StoredScenes() == hierarchy;
    didOpen, cancelled := loader.OnPlayModeChanged(true, false, true, true, [], true);
    assert loader.reloadScheduled;
    SingleActiveMovesToFirstLoaded(hierarchy, k);
    assert ActiveIndex(hierarchy) == k;
    outcome := loader.ReloadLastScene(false);
  }
}
