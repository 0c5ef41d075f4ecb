/** The persisted form of the editor's scene hierarchy: a list of scene
    setups stored as one pipe-delimited preference string of
    `active|loaded|path` triples, with the C# `string.Split` and
    `string.Join` semantics it relies on. */
module SceneCodec {

  /** One entry of the editor's scene hierarchy: whether it is the active
      scene, whether it is loaded, and the asset path of the scene file. */
  datatype SceneSetup = SceneSetup(isActive: bool, isLoaded: bool, path: string)

  /** The separator between tokens of the stored preference string. */
  const Separator: char := '|'

  /** True when no token contains the separator character. */
  predicate NoSeparator(tokens: seq<string>, sep: char)
  {
    forall i :: 0 <= i < |tokens| ==> sep !in tokens[i]
  }

  /** True when no scene path contains the separator, the condition under
      which the stored string reads back as the list that was written. */
  predicate PathsWithoutSeparator(scenes: seq<SceneSetup>)
  {
    forall i :: 0 <= i < |scenes| ==> Separator !in scenes[i].path
  }

  /** `string.Join` with a one-character separator: the tokens in order with
      one separator between neighbours; no tokens give the empty string. */
  function Join(tokens: seq<string>, sep: char): (s: string)
    ensures |tokens| == 0 ==> s == ""
    ensures |tokens| > 0 ==> |tokens[0]| <= |s| && s[..|tokens[0]|] == tokens[0]
  {
    if |tokens| == 0 then ""
    else if |tokens| == 1 then tokens[0]
    else tokens[0] + [sep] + Join(tokens[1..], sep)
  }

  /** `string.Split(sep)` with no options: every separator closes a token,
      so there is always at least one token (`""` splits into `[""]`) and
      no token contains the separator. */
  function Split(s: string, sep: char): (tokens: seq<string>)
    ensures |tokens| >= 1
    ensures NoSeparator(tokens, sep)
  {
    if |s| == 0 then [""]
    else
      var rest := Split(s[1..], sep);
      if s[0] == sep then [""] + rest
      else [[s[0]] + rest[0]] + rest[1..]
  }

  /** Joining the tokens of a split gives back the split string. */
  lemma {:induction false} JoinSplit(s: string, sep: char)
    ensures Join(Split(s, sep), sep) == s
  {
    if |s| > 0 {
      var rest := Split(s[1..], sep);
      JoinSplit(s[1..], sep);
      if s[0] == sep {
        assert Split(s, sep) == [""] + rest;
        assert ([""] + rest)[1..] == rest;
      } else if |rest| == 1 {
        assert Split(s, sep) == [[s[0]] + rest[0]];
      } else {
        var head := [s[0]] + rest[0];
        assert Split(s, sep) == [head] + rest[1..];
        assert ([head] + rest[1..])[1..] == rest[1..];
        assert Join(rest, sep) == rest[0] + [sep] + Join(rest[1..], sep);
      }
    }
  }

  /** Splitting a join gives back the tokens, provided there is at least
      one token and no token contains the separator. */
  lemma {:induction false} SplitJoin(tokens: seq<string>, sep: char)
    requires |tokens| >= 1
    requires NoSeparator(tokens, sep)
    ensures Split(Join(tokens, sep), sep) == tokens
    decreases |Join(tokens, sep)|
  {
    var s := Join(tokens, sep);
    if tokens[0] == [] {
      if |tokens| >= 2 {
        var tail := tokens[1..];
        assert s == [sep] + Join(tail, sep);
        assert s[1..] == Join(tail, sep);
        SplitJoin(tail, sep);
        assert [tokens[0]] + tail == tokens;
      }
    } else {
      var c, t := tokens[0][0], tokens[0][1..];
      assert c != sep by { assert c == tokens[0][0]; }
      var shorter := [t] + tokens[1..];
      assert shorter[1..] == tokens[1..];
      assert |shorter| == 1 ==> s == [c] + t;
      assert |shorter| >= 2 ==> s == [c] + (t + [sep] + Join(tokens[1..], sep));
      assert s[1..] == Join(shorter, sep);
      assert sep !in t by { assert sep !in tokens[0]; }
      assert NoSeparator(shorter, sep) by {
        forall i | 0 <= i < |shorter| ensures sep !in shorter[i] {
          if i > 0 { assert shorter[i] == tokens[i]; }
        }
      }
      SplitJoin(shorter, sep);
      assert [c] + t == tokens[0];
      assert [[c] + t] + tokens[1..] == tokens;
    }
  }

  /** Joining two non-empty token lists side by side puts one separator
      between the two joins. */
  lemma {:induction false} JoinAppend(left: seq<string>, right: seq<string>, sep: char)
    requires |left| >= 1 && |right| >= 1
    ensures Join(left + right, sep) == Join(left, sep) + [sep] + Join(right, sep)
  {
    if |left| > 1 {
      JoinAppend(left[1..], right, sep);
      assert (left + right)[1..] == left[1..] + right;
    } else {
      assert (left + right)[1..] == right;
    }
  }

  /** A token holding the separator joins to the same text as its two
      halves side by side. */
  lemma JoinSplitsToken(left: seq<string>, x: string, y: string, right: seq<string>, sep: char)
    ensures Join(left + [x + [sep] + y] + right, sep) == Join(left + [x, y] + right, sep)
  {
    var whole, halves := [x + [sep] + y] + right, [x, y] + right;
    assert halves[1..] == [y] + right;
    if |right| == 0 {
      assert whole == [x + [sep] + y] && [y] + right == [y];
    } else {
      assert whole[1..] == right && ([y] + right)[1..] == right;
      assert Join(whole, sep) == x + [sep] + y + [sep] + Join(right, sep);
    }
    assert Join(whole, sep) == Join(halves, sep);
    assert left + [x + [sep] + y] + right == left + whole;
    assert left + [x, y] + right == left + halves;
    if |left| >= 1 {
      JoinAppend(left, whole, sep);
      JoinAppend(left, halves, sep);
    } else {
      assert left + whole == whole && left + halves == halves;
    }
  }


  /** The token the encoder writes for a flag: `"true"` or `"false"`,
      which the decoder reads back as the same flag. */
  function FlagToken(b: bool): (token: string)
    ensures token == "true" || token == "false"
    ensures ParseFlag(token) == b
  {
    if b then "true" else "false"
  }

  /** How the decoder reads a flag token: anything except `"false"`,
      including a malformed token, reads as true. Both tokens the encoder
      writes read exactly, and only the encoder's false token reads false. */
  function ParseFlag(token: string): (b: bool)
    ensures token == "true" ==> b
    ensures !b ==> token == "false"
  {
    token != "false"
  }

  /** A flag reads back as written, the encoder only ever writes `"true"`
      or `"false"`, and a token reads as false exactly when it is `"false"`. */
  lemma FlagRoundTrip(b: bool, token: string)
    ensures ParseFlag(FlagToken(b)) == b
    ensures FlagToken(b) == "true" || FlagToken(b) == "false"
    ensures !ParseFlag(token) <==> token == "false"
  {
  }

  /** The three tokens of one scene: active flag, loaded flag, path. */
  function SceneTokens(scene: SceneSetup): seq<string>
  {
    [FlagToken(scene.isActive), FlagToken(scene.isLoaded), scene.path]
  }

  /** The tokens of a whole scene list, three per scene, in order. */
  function Tokens(scenes: seq<SceneSetup>): (tokens: seq<string>)
  {
    if |scenes| == 0 then [] else SceneTokens(scenes[0]) + Tokens(scenes[1..])
  }

  /** The text one scene becomes inside the encoder's `Select`. */
  function EncodeScene(scene: SceneSetup): string
  {
    FlagToken(scene.isActive) + [Separator] + FlagToken(scene.isLoaded) + [Separator] + scene.path
  }

  /** The encoder's `Select`: one text per scene. */
  function EncodeScenes(scenes: seq<SceneSetup>): seq<string>
  {
    if |scenes| == 0 then [] else [EncodeScene(scenes[0])] + EncodeScenes(scenes[1..])
  }

  /** The setter of the stored scene list: the per-scene texts joined by
      the separator. Only the empty list is stored as `""`, and the text
      starts with the first scene's active flag. */
  function Encode(scenes: seq<SceneSetup>): (s: string)
    ensures s == "" <==> scenes == []
    ensures |scenes| > 0 ==> |s| >= 4 && s[..4] == (if scenes[0].isActive then "true" else "fals")
  {
    var texts := EncodeScenes(scenes);
    assert |scenes| > 0 ==> texts[0] == EncodeScene(scenes[0]);
    Join(texts, Separator)
  }

  /** The decoder's view of a token list: one scene per complete triple,
      a trailing incomplete triple ignored. */
  function DecodeTokens(tokens: seq<string>): (scenes: seq<SceneSetup>)
    ensures |scenes| == |tokens| / 3
    ensures NoSeparator(tokens, Separator) ==> PathsWithoutSeparator(scenes)
  {
    if |tokens| < 3 then []
    else [SceneSetup(ParseFlag(tokens[0]), ParseFlag(tokens[1]), tokens[2])] + DecodeTokens(tokens[3..])
  }

  /** The getter of the stored scene list: one scene per complete triple
      of tokens, and no decoded path ever holds the separator. */
  function Decode(s: string): (scenes: seq<SceneSetup>)
    ensures |scenes| == |Split(s, Separator)| / 3
    ensures s == "" ==> scenes == []
    ensures PathsWithoutSeparator(scenes)
  {
    DecodeTokens(Split(s, Separator))
  }

  /** Scene `i` of a decode is read from tokens `3i`, `3i+1` and `3i+2`. */
  lemma {:induction false} DecodeTokensAt(tokens: seq<string>, i: nat)
    requires i < |tokens| / 3
    ensures DecodeTokens(tokens)[i]
         == SceneSetup(ParseFlag(tokens[3 * i]), ParseFlag(tokens[3 * i + 1]), tokens[3 * i + 2])
  {
    if i > 0 {
      DecodeTokensAt(tokens[3..], i - 1);
    }
  }

  /** A trailing incomplete triple does not change the decode. */
  lemma {:induction false} TrailingTokensIgnored(tokens: seq<string>)
    ensures DecodeTokens(tokens) == DecodeTokens(tokens[..3 * (|tokens| / 3)])
  {
    if |tokens| >= 3 {
      var whole := tokens[..3 * (|tokens| / 3)];
      TrailingTokensIgnored(tokens[3..]);
      assert whole[3..] == tokens[3..][..3 * (|tokens[3..]| / 3)];
    }
  }

  /** The encoder's text is the join of the flattened token triples. */
  lemma {:induction false} EncodeJoinsTokens(scenes: seq<SceneSetup>)
    ensures Encode(scenes) == Join(Tokens(scenes), Separator)
  {
    if |scenes| > 0 {
      var head := SceneTokens(scenes[0]);
      assert Join(head, Separator) == EncodeScene(scenes[0]) by {
        assert head[1..][1..] == [scenes[0].path];
        assert Join(head[1..], Separator) == head[1] + [Separator] + scenes[0].path;
      }
      if |scenes| == 1 {
        assert EncodeScenes(scenes) == [EncodeScene(scenes[0])];
        assert Tokens(scenes) == head + [];
        assert head + [] == head;
      } else {
        var rest := scenes[1..];
        EncodeJoinsTokens(rest);
        assert |EncodeScenes(rest)| >= 1;
        assert |Tokens(rest)| >= 1 by { assert |SceneTokens(rest[0])| == 3; }
        JoinAppend(head, Tokens(rest), Separator);
      }
    }
  }

  /** Three tokens per scene. */
  lemma {:induction false} TokensLength(scenes: seq<SceneSetup>)
    ensures |Tokens(scenes)| == 3 * |scenes|
  {
    if |scenes| > 0 {
      TokensLength(scenes[1..]);
    }
  }

  /** No token of a scene list contains the separator when no path does. */
  lemma {:induction false} TokensWithoutSeparator(scenes: seq<SceneSetup>)
    requires PathsWithoutSeparator(scenes)
    ensures NoSeparator(Tokens(scenes), Separator)
  {
    if |scenes| > 0 {
      var rest := scenes[1..];
      assert PathsWithoutSeparator(rest) by {
        forall i | 0 <= i < |rest| ensures Separator !in rest[i].path {
          assert rest[i] == scenes[i + 1];
        }
      }
      TokensWithoutSeparator(rest);
      var head := SceneTokens(scenes[0]);
      assert Separator !in head[0] && Separator !in head[1] by {
        assert head[0] == "true" || head[0] == "false";
        assert head[1] == "true" || head[1] == "false";
      }
      assert Separator !in head[2] by { assert head[2] == scenes[0].path; }
      var all := head + Tokens(rest);
      forall i | 0 <= i < |all| ensures Separator !in all[i] {
        if i >= 3 { assert all[i] == Tokens(rest)[i - 3]; }
      }
    }
  }

  /** Decoding the token triples of a scene list gives the list back. */
  lemma {:induction false} DecodeTokensOfTokens(scenes: seq<SceneSetup>)
    ensures DecodeTokens(Tokens(scenes)) == scenes
  {
    if |scenes| > 0 {
      var tokens, head, rest := Tokens(scenes), SceneTokens(scenes[0]), Tokens(scenes[1..]);
      assert tokens == head + rest;
      TokensLength(scenes[1..]);
      assert tokens[3..] == rest;
      assert tokens[0] == FlagToken(scenes[0].isActive) && tokens[1] == FlagToken(scenes[0].isLoaded);
      assert tokens[2] == scenes[0].path;
      DecodeTokensOfTokens(scenes[1..]);
      assert DecodeTokens(tokens) == [scenes[0]] + DecodeTokens(rest);
      assert [scenes[0]] + scenes[1..] == scenes;
    }
  }

  /** Reading back what was written gives the same scene list, provided no
      path contains the separator. */
  lemma DecodeEncode(scenes: seq<SceneSetup>)
    requires PathsWithoutSeparator(scenes)
    ensures Decode(Encode(scenes)) == scenes
  {
    EncodeJoinsTokens(scenes);
    DecodeTokensOfTokens(scenes);
    if |scenes| > 0 {
      TokensLength(scenes);
      TokensWithoutSeparator(scenes);
      SplitJoin(Tokens(scenes), Separator);
    }
  }

  /** The round trip holds exactly when no path holds the separator: a
      decoded path never holds it, so a list with such a path cannot come
      back unchanged. */
  lemma RoundTripExactlyWithoutSeparator(scenes: seq<SceneSetup>)
    ensures Decode(Encode(scenes)) == scenes <==> PathsWithoutSeparator(scenes)
  {
    if PathsWithoutSeparator(scenes) {
      DecodeEncode(scenes);
    }
  }

  /** The empty list is stored as `""`, and the unset default `""` reads
      back as the empty list. */
  lemma EmptyList()
    ensures Encode([]) == ""
    ensures Decode("") == []
  {
    assert Split("", Separator) == [""];
  }

  /** The decoded list is empty exactly when the stored string splits into
      fewer than three tokens, that is, has fewer than two separators. */
  lemma DecodeLength(s: string)
    ensures |Decode(s)| == 0 <==> |Split(s, Separator)| < 3
  {
  }

  /** A path holding the separator does not survive the round trip: the
      path is cut at the separator and the rest is read as a new triple. */
  lemma SeparatorInPathBreaksRoundTrip(scenes: seq<SceneSetup>)
    requires scenes == [SceneSetup(true, true, "a|b")]
    ensures Decode(Encode(scenes)) == [SceneSetup(true, true, "a")]
  {
    var tokens := ["true", "true", "a", "b"];
    CutPathTokens(scenes, tokens);
    assert DecodeTokens(tokens[3..]) == [];
  }

  /** The stored text of that list splits into four tokens. */
  lemma CutPathTokens(scenes: seq<SceneSetup>, tokens: seq<string>)
    requires scenes == [SceneSetup(true, true, "a|b")]
    requires tokens == ["true", "true", "a", "b"]
    ensures Split(Encode(scenes), Separator) == tokens
  {
    assert Encode(scenes) == Join(tokens, Separator) by {
      EncodeJoinsTokens(scenes);
      assert Tokens(scenes) == ["true", "true", "a|b"];
      assert Join(["a", "b"], Separator) == "a" + [Separator] + "b" == "a|b";
      assert tokens == ["true", "true"] + ["a", "b"];
      JoinAppend(["true", "true"], ["a", "b"], Separator);
      JoinAppend(["true", "true"], ["a|b"], Separator);
    }
    SplitJoin(tokens, Separator);
  }


  /** The getter: a fresh array filled in a loop with one scene per
      complete triple of tokens of the stored string. */
  method DecodeScenes(prefValue: string) returns (scenes: array<SceneSetup>)
    ensures fresh(scenes)
    ensures scenes[..] == Decode(prefValue)
  {
    var tokens := Split(prefValue, Separator);
    var numScenes := |tokens| / 3;
    scenes := new SceneSetup[numScenes];
    for i := 0 to |tokens| / 3
      invariant forall j :: 0 <= j < i ==> scenes[j] == DecodeTokens(tokens)[j]
    {
      DecodeTokensAt(tokens, i);
      scenes[i] := SceneSetup(tokens[i * 3 + 0] != "false", tokens[i * 3 + 1] != "false", tokens[i * 3 + 2]);
    }
  }
}
