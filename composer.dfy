/** The composer.json manipulator: adds a package to, or removes one from,
    the `require` section of the decoded document and writes the document
    back. The JSON text itself is not modelled; the document is the PHP array
    that json_decode returns. */
module ComposerManipulator {
  import opened Php

  /** A decoded JSON value as PHP holds it after json_decode(..., true):
      objects and lists both become arrays, here keyed by string. */
  datatype Json = JNull | JBool(b: bool) | JNumber(literal: string) | JString(s: string) | JArray(entries: map<string, Json>)

  const RequireKey: string := "require"

  /** `$config['require'][$package] = $version` can go ahead: PHP turns an
      absent, null or false `require` into a new array and writes into an
      existing array; on any other scalar the assignment raises an error. */
  predicate RequireAssignable(config: map<string, Json>)
    ensures RequireKey !in config ==> RequireAssignable(config)
    ensures (RequireKey in config &&
             (config[RequireKey] == JBool(true) || config[RequireKey].JNumber? || config[RequireKey].JString?))
            ==> !RequireAssignable(config)
    ensures (RequireKey in config &&
             (config[RequireKey] == JNull || config[RequireKey] == JBool(false) || config[RequireKey].JArray?))
            ==> RequireAssignable(config)
  {
    RequireKey !in config || config[RequireKey] == JNull || config[RequireKey] == JBool(false) || config[RequireKey].JArray?
  }

  /** The entries of the `require` array; none when `require` is not an array. */
  function Requirements(config: map<string, Json>): map<string, Json>
  {
    if RequireKey in config && config[RequireKey].JArray? then config[RequireKey].entries else map[]
  }

  /** `isset($config['require'][$package])`: the entry exists and is not null. */
  predicate IsRequired(config: map<string, Json>, package: string)
    ensures IsRequired(config, package) ==>
              RequireKey in config && config[RequireKey].JArray? &&
              package in config[RequireKey].entries && config[RequireKey].entries[package] != JNull
    ensures (RequireKey in config && config[RequireKey].JArray? && package in config[RequireKey].entries &&
             config[RequireKey].entries[package] != JNull)
            ==> IsRequired(config, package)
  {
    package in Requirements(config) && Requirements(config)[package] != JNull
  }

  /** The document after addPackage(package, version). */
  function WithPackage(config: map<string, Json>, package: string, version: string): (r: map<string, Json>)
    requires RequireAssignable(config)
    ensures RequireKey in r && r[RequireKey].JArray?
    ensures package in Requirements(r) && Requirements(r)[package] == JString(version)
    ensures forall q :: q != package ==> (q in Requirements(r) <==> q in Requirements(config))
    ensures forall q :: q != package && q in Requirements(config) ==> Requirements(r)[q] == Requirements(config)[q]
    ensures r.Keys == config.Keys + {RequireKey}
    ensures forall k :: k in config && k != RequireKey ==> r[k] == config[k]
  {
    config[RequireKey := JArray(Requirements(config)[package := JString(version)])]
  }

  /** The document after removePackage(package). */
  function WithoutPackage(config: map<string, Json>, package: string): (r: map<string, Json>)
    ensures !IsRequired(config, package) ==> r == config
    ensures IsRequired(config, package) ==> r.Keys == config.Keys && package !in Requirements(r)
    ensures IsRequired(config, package) ==>
              r[RequireKey].JArray? && Requirements(r) == Requirements(config) - {package}
    ensures forall q :: q != package ==> (q in Requirements(r) <==> q in Requirements(config))
    ensures forall q :: q != package && q in Requirements(config) ==> Requirements(r)[q] == Requirements(config)[q]
    ensures forall k :: k in config && k != RequireKey ==> k in r && r[k] == config[k]
  {
    if IsRequired(config, package) then
      config[RequireKey := JArray(Requirements(config) - {package})]
    else
      config
  }

  /** The manipulator over the decoded content of composer.json. */
  class Composer {
    var content: map<string, Json>

    constructor (content: map<string, Json>)
      ensures this.content == content
    {
      this.content := content;
    }

    /** addPackage: sets `require[package]` to `version`, creating `require`
        when needed, and writes the document back. `ok` is false when PHP
        raises an error instead, and then nothing is written. */
    method AddPackage(package: string, version: string) returns (ok: bool)
      modifies this
      ensures ok == RequireAssignable(old(content))
      ensures ok ==> content == WithPackage(old(content), package, version)
      ensures !ok ==> content == old(content)
    {
      var config := content;
      if RequireKey in config && config[RequireKey] != JNull && config[RequireKey] != JBool(false) && !config[RequireKey].JArray? {
        ok := false;
        return;
      }
      var require := map[];
      if RequireKey in config && config[RequireKey].JArray? {
        require := config[RequireKey].entries;
      }
      require := require[package := JString(version)];
      config := config[RequireKey := JArray(require)];
      content := config;
      ok := true;
    }

    /** removePackage: when `require[package]` is set, unsets it and writes the
        document back; otherwise writes nothing. */
    method RemovePackage(package: string)
      modifies this
      ensures content == WithoutPackage(old(content), package)
      ensures !IsRequired(old(content), package) ==> unchanged(this)
    {
      var config := content;
      if RequireKey in config && config[RequireKey].JArray? &&
         package in config[RequireKey].entries && config[RequireKey].entries[package] != JNull {
        var require := config[RequireKey].entries;
        require := require - {package};
        config := config[RequireKey := JArray(require)];
        content := config;
      }
    }
  }

  /** Adding the same package and version twice is adding it once. */
  lemma AddIdempotent(config: map<string, Json>, package: string, version: string)
    requires RequireAssignable(config)
    ensures RequireAssignable(WithPackage(config, package, version))
    ensures WithPackage(WithPackage(config, package, version), package, version) == WithPackage(config, package, version)
  {
    var once := WithPackage(config, package, version);
    assert Requirements(once)[package := JString(version)] == Requirements(once);
  }

  /** A second addPackage of the same package overwrites the first version. */
  lemma AddOverwrites(config: map<string, Json>, package: string, v1: string, v2: string)
    requires RequireAssignable(config)
    ensures RequireAssignable(WithPackage(config, package, v1))
    ensures WithPackage(WithPackage(config, package, v1), package, v2) == WithPackage(config, package, v2)
  {
    var once := WithPackage(config, package, v1);
    assert Requirements(once)[package := JString(v2)] == Requirements(config)[package := JString(v2)];
  }

  /** Adding two different packages gives the same document in either order. */
  lemma AddCommutes(config: map<string, Json>, p: string, v: string, q: string, w: string)
    requires RequireAssignable(config) && p != q
    ensures RequireAssignable(WithPackage(config, p, v)) && RequireAssignable(WithPackage(config, q, w))
    ensures WithPackage(WithPackage(config, p, v), q, w) == WithPackage(WithPackage(config, q, w), p, v)
  {
    var pq := Requirements(config)[p := JString(v)][q := JString(w)];
    var qp := Requirements(config)[q := JString(w)][p := JString(v)];
    assert pq == qp;
  }

  /** Removing a package twice is removing it once. */
  lemma RemoveIdempotent(config: map<string, Json>, package: string)
    ensures WithoutPackage(WithoutPackage(config, package), package) == WithoutPackage(config, package)
  {
  }

  /** After removePackage the package is no longer required. */
  lemma RemoveUnsets(config: map<string, Json>, package: string)
    ensures !IsRequired(WithoutPackage(config, package), package)
  {
  }

  /** Adding a package that an existing `require` array lacks and then
      removing it restores the document exactly. */
  lemma AddThenRemoveRestores(config: map<string, Json>, package: string, version: string)
    requires RequireKey in config && config[RequireKey].JArray?
    requires package !in config[RequireKey].entries
    ensures WithoutPackage(WithPackage(config, package, version), package) == config
  {
    var entries := config[RequireKey].entries;
    assert entries[package := JString(version)] - {package} == entries;
    assert config[RequireKey := JArray(entries)] == config;
  }

  /** Without a `require` key the round trip is not exact: the document keeps
      an empty `require` array. */
  lemma AddThenRemoveLeavesEmptyRequire(config: map<string, Json>, package: string, version: string)
    requires RequireKey !in config
    ensures WithoutPackage(WithPackage(config, package, version), package) == config[RequireKey := JArray(map[])]
  {
    assert map[package := JString(version)] - {package} == map[];
  }

  /** Removing a package and adding it again is the same as adding it. */
  lemma RemoveThenAdd(config: map<string, Json>, package: string, version: string)
    requires RequireAssignable(config)
    ensures RequireAssignable(WithoutPackage(config, package))
    ensures WithPackage(WithoutPackage(config, package), package, version) == WithPackage(config, package, version)
  {
    if IsRequired(config, package) {
      var entries := Requirements(config);
      assert (entries - {package})[package := JString(version)] == entries[package := JString(version)];
    }
  }
}
