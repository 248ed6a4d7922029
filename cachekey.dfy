/** The cache key of the action (src/key.ts): the `key` input when it is
    set; otherwise a key built from the platform, the architecture and the
    hash of flake.lock as `nix hash file flake.lock` prints it; the
    platform-only key when that prints nothing; and "nix-store-default" when
    running the command throws. */
module CacheKey {
  import Js

  /** What running `nix hash file flake.lock` does: the chunks its standard
      output arrives in, or a throw (nix missing, a non-zero exit status). */
  datatype HashRun = Ran(chunks: seq<string>) | Failed

  /** The hash the stdout listener builds: each chunk trimmed, in order of
      arrival. */
  function Hash(chunks: seq<string>): (r: string)
    ensures Js.Trimmed(r)
  {
    if chunks == [] then []
    else
      var t := Js.Trim(chunks[0]);
      var h := Hash(chunks[1..]);
      Js.TrimmedConcat(t, h);
      t + h
  }

  /** `let hash = ""` and the listener's `hash += data.toString().trim()`. */
  method AccumulateHash(chunks: seq<string>) returns (hash: string)
    ensures hash == Hash(chunks)
  {
    hash := "";
    for i := 0 to |chunks|
      invariant hash == Hash(chunks[..i])
    {
      HashAppend(chunks[..i], [chunks[i]]);
      HashSingle(chunks[i]);
      SnocPrefix(chunks, i);
      hash := hash + Js.Trim(chunks[i]);
    }
    assert chunks[..|chunks|] == chunks;
  }

  lemma HashSingle(chunk: string)
    ensures Hash([chunk]) == Js.Trim(chunk)
  {
    assert [chunk][1..] == [];
  }

  lemma SnocPrefix(chunks: seq<string>, i: nat)
    requires i < |chunks|
    ensures chunks[..i] + [chunks[i]] == chunks[..i + 1]
  {
  }

  const Prefix := "nix-store-"
  const Default := "nix-store-default"

  /** The key `getKey` resolves to: the specification of `GetKey`. */
  function Key(input: string, platform: string, arch: string, run: HashRun): (key: string)
    ensures input != "" ==> key == input
    ensures input == "" ==> |key| > |Prefix| && key[..|Prefix|] == Prefix
  {
    if input != "" then input
    else
      match run
      case Failed => Default
      case Ran(chunks) =>
        var hash := Hash(chunks);
        if hash != "" then Prefix + platform + "-" + arch + "-" + hash
        else Prefix + platform + "-" + arch
  }

  /** `getKey`, with `core.getInput("key")` as `input`, `core.platform` as
      `platform` and `arch`, and the hash command's behaviour as `run`. */
  method GetKey(input: string, platform: string, arch: string, run: HashRun) returns (key: string)
    ensures key == Key(input, platform, arch, run)
  {
    if input != "" {
      return input;
    }
    if run.Failed? {
      return Default;
    }
    var hash := AccumulateHash(run.chunks);
    if hash != "" {
      key := Prefix + platform + "-" + arch + "-" + hash;
    } else {
      key := Prefix + platform + "-" + arch;
    }
  }

  /** A key given by the user is used as it is, whatever the hash command
      would have done: it is never consulted. */
  lemma UserKeyWins(input: string, platform: string, arch: string, run: HashRun, other: HashRun)
    requires input != ""
    ensures Key(input, platform, arch, run) == Key(input, platform, arch, other) == input
  {
  }

  /** Without a user key, a non-empty hash gives
      "nix-store-<platform>-<arch>-<hash>". */
  lemma HashKey(platform: string, arch: string, chunks: seq<string>)
    requires Hash(chunks) != ""
    ensures Key("", platform, arch, Ran(chunks)) == Prefix + platform + "-" + arch + "-" + Hash(chunks)
  {
  }

  /** In particular nix's one-line output "<hash>\n" gives the key with
      that hash. */
  lemma LineHashKey(platform: string, arch: string, h: string)
    requires h != "" && Js.Trimmed(h)
    ensures Key("", platform, arch, Ran([h + "\n"])) == Prefix + platform + "-" + arch + "-" + h
  {
    HashOfLine(h);
  }

  /** The default key comes only from a hash command that throws: a key
      built from the platform always has a dash after the prefix, and
      "default" has none. */
  lemma DefaultOnlyOnFailure(platform: string, arch: string, run: HashRun)
    ensures Key("", platform, arch, run) == Default <==> run.Failed?
  {
    if run.Ran? {
      var key := Key("", platform, arch, run);
      assert key[|Prefix| + |platform|] == '-';
      DefaultHasNoDash();
    }
  }

  lemma DefaultHasNoDash()
    ensures forall i :: |Prefix| <= i < |Default| ==> Default[i] != '-'
  {
    assert Default[|Prefix|..] == "default";
  }

  /** The hash of chunks received one after the other is the hash of the
      first batch followed by that of the second: only the order counts. */
  lemma {:induction false} HashAppend(xs: seq<string>, ys: seq<string>)
    ensures Hash(xs + ys) == Hash(xs) + Hash(ys)
  {
    if xs == [] {
      assert xs + ys == ys;
    } else {
      assert (xs + ys)[1..] == xs[1..] + ys;
      HashAppend(xs[1..], ys);
    }
  }

  /** The hash is empty exactly when every chunk is white space. */
  lemma {:induction false} HashEmpty(chunks: seq<string>)
    ensures Hash(chunks) == [] <==> forall i :: 0 <= i < |chunks| ==> Js.AllSpace(chunks[i])
  {
    if chunks != [] {
      var rest := chunks[1..];
      HashEmpty(rest);
      Js.TrimEmpty(chunks[0]);
      assert Hash(chunks) == Js.Trim(chunks[0]) + Hash(rest);
      if Hash(chunks) == [] {
        forall i | 0 <= i < |chunks|
          ensures Js.AllSpace(chunks[i])
        {
          if i > 0 {
            assert chunks[i] == rest[i - 1];
          }
        }
      }
      if forall i :: 0 <= i < |chunks| ==> Js.AllSpace(chunks[i]) {
        forall i | 0 <= i < |rest|
          ensures Js.AllSpace(rest[i])
        {
          assert rest[i] == chunks[i + 1];
        }
        assert Js.AllSpace(chunks[0]);
      }
    }
  }

  /** nix prints the hash on one line: a single chunk "<hash>\n" gives
      back the hash. */
  lemma HashOfLine(h: string)
    requires Js.Trimmed(h)
    ensures Hash([h + "\n"]) == h
  {
    assert [h + "\n"][1..] == [];
    assert Js.AllSpace("\n");
    assert [] + h + "\n" == h + "\n";
    Js.TrimOf([], h, "\n");
  }

  /** On one platform and architecture, different non-empty hashes give
      different keys. */
  lemma KeyDeterminesHash(platform: string, arch: string, c1: seq<string>, c2: seq<string>)
    requires Hash(c1) != "" && Hash(c2) != ""
    requires Key("", platform, arch, Ran(c1)) == Key("", platform, arch, Ran(c2))
    ensures Hash(c1) == Hash(c2)
  {
    var stem := Prefix + platform + "-" + arch + "-";
    assert Key("", platform, arch, Ran(c1)) == stem + Hash(c1);
    assert Hash(c1) == (stem + Hash(c1))[|stem|..];
    assert Hash(c2) == (stem + Hash(c2))[|stem|..];
  }

  /** Output that is only white space, or none at all, gives the
      platform-only key. */
  lemma BlankHashKey(platform: string, arch: string, chunks: seq<string>)
    requires forall i :: 0 <= i < |chunks| ==> Js.AllSpace(chunks[i])
    ensures Key("", platform, arch, Ran(chunks)) == Prefix + platform + "-" + arch
  {
    HashEmpty(chunks);
  }
}
