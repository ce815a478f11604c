/** The shared part of the migrate jobs run when a plugin package is
    installed, updated or removed: where the package keeps its Doctrine
    migrations configuration, and which namespace and directory that
    configuration names. The filesystem and the YAML and XML parsers are
    inputs: the set of paths that exist, the parsed YAML mapping, and the node
    values each XPath query selects. */
module MigrateJob {
  import opened Php

  const MigrationsOption: string := "anime-db-migrations"
  const YamlConfigName: string := "migrations.yml"
  const XmlConfigName: string := "migrations.xml"

  const YamlExtension: string := "yml"
  const XmlExtension: string := "xml"

  const YamlNamespaceKey: string := "migrations_namespace"
  const YamlDirectoryKey: string := "migrations_directory"
  const XmlNamespaceQuery: string := "/doctrine-migrations/migrations-namespace"
  const XmlDirectoryQuery: string := "/doctrine-migrations/migrations-directory"

  /** The package's own directory under the vendor directory. */
  function PackageDir(vendorDir: string, packageName: string): (r: string)
    ensures vendorDir <= r && |r| == |vendorDir| + |packageName| + 1
    ensures r[|vendorDir|..|r| - 1] == packageName && r[|r| - 1] == '/'
  {
    vendorDir + packageName + "/"
  }

  /** Under one vendor directory, different packages look in different
      directories. */
  lemma PackageDirsDistinct(vendorDir: string, p: string, q: string)
    requires p != q
    ensures PackageDir(vendorDir, p) != PackageDir(vendorDir, q)
  {
  }

  /** getMigrationsConfig: a truthy `anime-db-migrations` package option is
      taken as it is; otherwise the package's migrations.yml if it exists,
      then its migrations.xml if that exists, and otherwise nothing. */
  function GetMigrationsConfig(options: map<string, string>, vendorDir: string, packageName: string,
                               existing: set<string>): (r: Option<string>)
    ensures Truthy(Get(options, MigrationsOption)) ==> r == Get(options, MigrationsOption)
    ensures !Truthy(Get(options, MigrationsOption)) && r.Some? ==>
              r.value in existing &&
              (r.value == PackageDir(vendorDir, packageName) + YamlConfigName ||
               (r.value == PackageDir(vendorDir, packageName) + XmlConfigName &&
                PackageDir(vendorDir, packageName) + YamlConfigName !in existing))
    ensures r.None? <==>
              !Truthy(Get(options, MigrationsOption)) &&
              PackageDir(vendorDir, packageName) + YamlConfigName !in existing &&
              PackageDir(vendorDir, packageName) + XmlConfigName !in existing
  {
    var option := Get(options, MigrationsOption);
    if Truthy(option) then option
    else
      var dir := PackageDir(vendorDir, packageName);
      if dir + YamlConfigName in existing then Some(dir + YamlConfigName)
      else if dir + XmlConfigName in existing then Some(dir + XmlConfigName)
      else None
  }

  /** The namespace as returned: a leading backslash, if any, is dropped, and
      only that one character. */
  function NormaliseNamespace(namespace: string): (r: string)
    ensures |namespace| > 0 && namespace[0] == '\\' ==> r == namespace[1..]
    ensures !(|namespace| > 0 && namespace[0] == '\\') ==> r == namespace
  {
    if Truthy(Some(namespace)) && namespace[0] == '\\' then namespace[1..] else namespace
  }

  /** getNamespaceAndDirectory: both values start empty; a `yml` file fills
      them from the two YAML keys that are set, an `xml` file from the first
      node of each XPath query; any other extension leaves them empty. The
      directory is returned as read and the namespace normalised. */
  method GetNamespaceAndDirectory(extension: string, yaml: map<string, Option<string>>,
                                  xpath: map<string, seq<string>>)
    returns (namespace: string, directory: string)
    ensures extension == YamlExtension ==>
              namespace == NormaliseNamespace(
                if YamlNamespaceKey in yaml && yaml[YamlNamespaceKey].Some? then yaml[YamlNamespaceKey].value else "")
    ensures extension == YamlExtension ==>
              directory == (if YamlDirectoryKey in yaml && yaml[YamlDirectoryKey].Some? then yaml[YamlDirectoryKey].value else "")
    ensures extension == XmlExtension ==>
              namespace == NormaliseNamespace(
                if XmlNamespaceQuery in xpath && |xpath[XmlNamespaceQuery]| > 0 then xpath[XmlNamespaceQuery][0] else "")
    ensures extension == XmlExtension ==>
              directory == (if XmlDirectoryQuery in xpath && |xpath[XmlDirectoryQuery]| > 0 then xpath[XmlDirectoryQuery][0] else "")
    ensures extension != YamlExtension && extension != XmlExtension ==> namespace == "" && directory == ""
  {
    namespace := "";
    directory := "";
    if extension == YamlExtension {
      if YamlNamespaceKey in yaml && yaml[YamlNamespaceKey].Some? {
        namespace := yaml[YamlNamespaceKey].value;
      }
      if YamlDirectoryKey in yaml && yaml[YamlDirectoryKey].Some? {
        directory := yaml[YamlDirectoryKey].value;
      }
    } else if extension == XmlExtension {
      var list := if XmlNamespaceQuery in xpath then xpath[XmlNamespaceQuery] else [];
      if |list| > 0 {
        namespace := list[0];
      }
      list := if XmlDirectoryQuery in xpath then xpath[XmlDirectoryQuery] else [];
      if |list| > 0 {
        directory := list[0];
      }
    }
    namespace := NormaliseNamespace(namespace);
  }

  /** The option wins even when both configuration files exist. */
  lemma OptionOverridesFiles(options: map<string, string>, vendorDir: string, packageName: string, existing: set<string>)
    requires Truthy(Get(options, MigrationsOption))
    ensures GetMigrationsConfig(options, vendorDir, packageName, existing) == Some(options[MigrationsOption])
  {
  }

  /** Without the option, the YAML file is preferred to the XML file. */
  lemma YamlPreferred(vendorDir: string, packageName: string, existing: set<string>)
    requires PackageDir(vendorDir, packageName) + YamlConfigName in existing
    ensures GetMigrationsConfig(map[], vendorDir, packageName, existing) == Some(PackageDir(vendorDir, packageName) + YamlConfigName)
  {
  }

  /** Normalisation is not repeated: of two leading backslashes one stays, and
      putting the dropped backslash back gives the namespace as read. */
  lemma StripsOnlyOne(namespace: string)
    requires |namespace| > 0 && namespace[0] == '\\'
    ensures "\\" + NormaliseNamespace(namespace) == namespace
    ensures NormaliseNamespace("\\\\" + namespace[1..]) == namespace
  {
    assert ("\\\\" + namespace[1..])[1..] == "\\" + namespace[1..];
  }
}
