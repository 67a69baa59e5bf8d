/**
 * `check_integrity`: the start-up check that the environment names every key
 * the server needs. The environment is passed in as the list of
 * `(key, value)` pairs `env::vars()` would yield; a panic is an outcome.
 */
module Integrity {

  /** `IMPORTANT_KEYS`. */
  const ImportantKeys: seq<string> := ["SECRET", "PORT", "MONGODB_URI"]

  type Env = seq<(string, string)>

  /** How the check ends: it returns, or it panics naming a key it did not find. */
  datatype Integrity = Complete | Panic(missing: string)

  /** Some pair of the environment has key `k`, whatever its value. */
  predicate HasKey(env: Env, k: string) {
    exists j :: 0 <= j < |env| && env[j].0 == k
  }

  predicate AllKeysPresent(env: Env) {
    forall i :: 0 <= i < |ImportantKeys| ==> HasKey(env, ImportantKeys[i])
  }

  /**
   * The flag map `comprobe` once the pairs of `env` have been scanned: one
   * flag per important key, and every flag is set exactly when every
   * important key is present.
   */
  function Flags(env: Env): (r: map<string, bool>)
    ensures r.Keys == set k | k in ImportantKeys
    ensures (forall k :: k in r ==> r[k]) <==> AllKeysPresent(env)
  {
    var r := map k | k in ImportantKeys :: HasKey(env, k);
    assert forall i :: 0 <= i < |ImportantKeys| ==> ImportantKeys[i] in r;
    r
  }

  /**
   * `check_integrity`. The flags start false, are set by the nested loops, and
   * the final scan visits them in no fixed order (a `HashMap`), so the key a
   * panic names is any missing one.
   */
  method CheckIntegrity(env: Env) returns (r: Integrity)
    ensures r == Complete <==> AllKeysPresent(env)
    ensures r.Panic? ==> r.missing in ImportantKeys && !HasKey(env, r.missing)
  {
    var comprobe: map<string, bool> := map[];
    for i := 0 to |ImportantKeys|
      invariant comprobe == map k | k in ImportantKeys[..i] :: false
    {
      comprobe := comprobe[ImportantKeys[i] := false];
    }
    assert ImportantKeys[..|ImportantKeys|] == ImportantKeys;

    for j := 0 to |env|
      invariant comprobe == Flags(env[..j])
    {
      var key := env[j].0;
      ghost var before := comprobe;
      for m := 0 to |ImportantKeys|
        invariant comprobe == if key in ImportantKeys[..m] then before[key := true] else before
      {
        var ik := ImportantKeys[m];
        assert key in ImportantKeys[..m + 1] <==> key in ImportantKeys[..m] || key == ik;
        if key == ik {
          comprobe := comprobe[ik := true];
        }
      }
      assert ImportantKeys[..|ImportantKeys|] == ImportantKeys;
      FlagsStep(env, j);
    }
    assert env[..|env|] == env;

    var unseen := comprobe.Keys;
    while unseen != {}
      invariant unseen <= comprobe.Keys
      invariant forall k :: k in comprobe.Keys - unseen ==> comprobe[k]
      decreases unseen
    {
      var key :| key in unseen;
      if !comprobe[key] {
        return Panic(key);
      }
      unseen := unseen - {key};
    }
    assert forall i :: 0 <= i < |ImportantKeys| ==> comprobe[ImportantKeys[i]];
    return Complete;
  }

  /** One more pair of the environment adds its key to those present. */
  lemma HasKeyStep(env: Env, j: nat, k: string)
    requires j < |env|
    ensures HasKey(env[..j + 1], k) <==> HasKey(env[..j], k) || env[j].0 == k
  {
    if HasKey(env[..j + 1], k) && !HasKey(env[..j], k) {
      var w :| 0 <= w < j + 1 && env[..j + 1][w].0 == k;
      assert w == j;
    }
    if env[j].0 == k {
      assert env[..j + 1][j].0 == k;
    }
    if HasKey(env[..j], k) {
      var w :| 0 <= w < j && env[..j][w].0 == k;
      assert env[..j + 1][w].0 == k;
    }
  }

  /** One more pair sets the flag of its key, if that key is important. */
  lemma FlagsStep(env: Env, j: nat)
    requires j < |env|
    ensures Flags(env[..j + 1]) ==
      if env[j].0 in ImportantKeys then Flags(env[..j])[env[j].0 := true] else Flags(env[..j])
  {
    forall k | k in ImportantKeys {
      HasKeyStep(env, j, k);
    }
  }

  /** Scanning more pairs only ever moves a flag from false to true. */
  lemma FlagsOnlyRise(env: Env, more: Env)
    ensures Flags(env).Keys == Flags(env + more).Keys == set k | k in ImportantKeys
    ensures forall k :: k in Flags(env) && Flags(env)[k] ==> Flags(env + more)[k]
  {
    forall k | k in ImportantKeys && HasKey(env, k)
      ensures HasKey(env + more, k)
    {
      var w :| 0 <= w < |env| && env[w].0 == k;
      assert (env + more)[w].0 == k;
    }
  }

  /** Reordering the environment does not change the outcome. */
  lemma OrderIsIrrelevant(env: Env, shuffled: Env)
    requires multiset(env) == multiset(shuffled)
    ensures AllKeysPresent(env) <==> AllKeysPresent(shuffled)
  {
    forall k, e: Env, f: Env | multiset(e) == multiset(f) && HasKey(e, k)
      ensures HasKey(f, k)
    {
      var w :| 0 <= w < |e| && e[w].0 == k;
      assert e[w] in multiset(f);
      var v :| 0 <= v < |f| && f[v] == e[w];
    }
  }

  /** Adding pairs whose keys are not important does not change the outcome. */
  lemma ExtraKeysAreIrrelevant(env: Env, extra: Env)
    requires forall j :: 0 <= j < |extra| ==> extra[j].0 !in ImportantKeys
    ensures AllKeysPresent(env + extra) <==> AllKeysPresent(env)
  {
    forall k | k in ImportantKeys && HasKey(env + extra, k)
      ensures HasKey(env, k)
    {
      var w :| 0 <= w < |env + extra| && (env + extra)[w].0 == k;
      assert w < |env|;
      assert env[w].0 == k;
    }
    forall k | HasKey(env, k)
      ensures HasKey(env + extra, k)
    {
      var w :| 0 <= w < |env| && env[w].0 == k;
      assert (env + extra)[w].0 == k;
    }
  }

  /** Values are never looked at: an empty value counts as present. */
  lemma ValuesAreIgnored(env: Env, other: Env)
    requires |env| == |other|
    requires forall j :: 0 <= j < |env| ==> env[j].0 == other[j].0
    ensures AllKeysPresent(env) <==> AllKeysPresent(other)
  {
    forall k | HasKey(env, k) ensures HasKey(other, k) {
      var w :| 0 <= w < |env| && env[w].0 == k;
      assert other[w].0 == k;
    }
    forall k | HasKey(other, k) ensures HasKey(env, k) {
      var w :| 0 <= w < |other| && other[w].0 == k;
      assert env[w].0 == k;
    }
  }

  /** A configuration with every key, one with an empty value, passes; one without `PORT` does not. */
  lemma CheckIntegrityExamples()
    ensures AllKeysPresent([("PORT", ""), ("HOME", "/root"), ("MONGODB_URI", "mongodb://db"), ("SECRET", "s")])
    ensures !AllKeysPresent([("SECRET", "s"), ("MONGODB_URI", "mongodb://db")])
  {
    var good: Env := [("PORT", ""), ("HOME", "/root"), ("MONGODB_URI", "mongodb://db"), ("SECRET", "s")];
    assert good[3].0 == ImportantKeys[0];
    assert good[0].0 == ImportantKeys[1];
    assert good[2].0 == ImportantKeys[2];
    var bad: Env := [("SECRET", "s"), ("MONGODB_URI", "mongodb://db")];
    assert !HasKey(bad, ImportantKeys[1]);
  }
}
