# AnimeDb core logic in Dafny

A Dafny model of four small pieces of logic in the AnimeDb catalog application,
with proofs of what each one promises:

- **Firewall** (`firewall.dfy`, with `ipv4.dfy` and `php.dfy`): the
  kernel-request listener that admits only local clients. Sub-requests pass
  untouched. A top-level request is refused when it has a truthy
  `HTTP_CLIENT_IP` or `HTTP_X_FORWARDED_FOR`, or a falsy `REMOTE_ADDR`, or an
  address that is neither a loopback spelling nor on the local network. An
  address with a colon is on the local network unless it starts with `fc00::`.
  Any other address must parse with `ip2long` and fall in one of the private
  blocks of section 3 of RFC 1918. A refused request gets a public 403 response
  with the fixed message, and propagation stops. `ip2long` is modelled as the C
  library's `inet_pton`, which PHP uses: four canonical decimal octets up to 255,
  joined by dots. It is proved to accept exactly the dotted-quad spellings of
  addresses.
- **Storage entity** (`storage.dfy`): the `Storage` class with its setters and
  its four type names. It holds the title table, the writable and readable
  subsets, the "path is required" rule and the `isPathValid` validation
  callback. It keeps the item association from both ends through
  `addItem`/`removeItem`. `ArrayCollection::removeElement` drops the first
  identical element and keeps the order of the remaining elements.
- **composer.json manipulator** (`composer.dfy`): `addPackage` and
  `removePackage` as read-modify-write of the decoded document held by a
  `Composer` object. Both are specified by functions on the document, and
  idempotence, overwriting, commutation and add-then-remove round trips are
  proved about those functions. The document is a map, so these equalities
  hold up to key order, as PHP's `==` on arrays compares.
- **Migration configuration** (`migrate.dfy`): the precedence of
  `getMigrationsConfig` (option, then `migrations.yml`, then `migrations.xml`,
  then null). Also the step-by-step filling of namespace and directory in
  `getNamespaceAndDirectory`, and its single-backslash normalisation.

Behaviour of the code worth stating plainly:

- The proxy headers `HTTP_CLIENT_IP` and `HTTP_X_FORWARDED_FOR` refuse a
  request only when their value is truthy in PHP's sense
  (src/Event/Listener/Firewall.php:40-41). A header that is present but empty
  or `"0"` does not refuse.
- The IPv6 rule refuses only the literal, case-sensitive prefix `fc00::`
  (src/Event/Listener/Firewall.php:74). So `fd00::1`, `fc00:1::1` and
  `FC00::1` are admitted.
- Deleting a storage removes the entity and flushes, and nothing else
  (src/AnimeDB/Bundle/CatalogBundle/Controller/StorageController.php:119-120).
  Its items are not detached first, so the model has no detach-all operation.
- The read-only external type is spelled `external-r`
  (src/AnimeDB/Bundle/CatalogBundle/Entity/Storage.php:50).

## Model

| member | source | states |
|---|---|---|
| Php.StrPos | src/Event/Listener/Firewall.php:73-74 | strpos: the result is the offset of an occurrence of the needle with none before it, or false exactly when the needle occurs nowhere |
| Php.StrPosZeroIffPrefix | src/Event/Listener/Firewall.php:74 | `strpos(a, n) === 0` holds exactly when n is a prefix of a |
| Php.StrPosChar | src/Event/Listener/Firewall.php:73 | `strpos(a, ':') !== false` holds exactly when a contains a colon |
| IPv4.Split | src/Event/Listener/Firewall.php:77 | the dot-separated pieces of an address: at least one piece, none with a dot, and joined back they give the address |
| IPv4.SplitJoin | src/Event/Listener/Firewall.php:77 | splitting a dotted join of dot-free parts gives back exactly those parts |
| IPv4.DecimalValueOfDecimal | src/Event/Listener/Firewall.php:77 | reading the canonical decimal spelling of n gives n |
| IPv4.DecimalOfDecimalValue | src/Event/Listener/Firewall.php:77 | every canonical digit string (no leading zero) is the spelling of its value |
| IPv4.ParseOctet | src/Event/Listener/Firewall.php:77 | an octet is accepted exactly when it is a canonical decimal no greater than 255, and the value's spelling is the octet |
| IPv4.ParseOctets | src/Event/Listener/Firewall.php:77 | an address parses exactly when it splits on dots into four pieces that each parse as an octet; the octets are then valid and the pieces are their canonical spellings |
| IPv4.Ip2Long | src/Event/Listener/Firewall.php:77-79 | ip2long succeeds exactly when the four octets parse, and then yields a number below 2^32 |
| IPv4.ParseFormat | src/Event/Listener/Firewall.php:77-85 | ip2long accepts the dotted quad of every valid address and returns a·2^24 + b·2^16 + c·2^8 + d |
| IPv4.FormatParse | src/Event/Listener/Firewall.php:77-79 | whatever ip2long accepts is the canonical dotted quad of the octets it read |
| IPv4.Ip2LongInjective | src/Event/Listener/Firewall.php:77-85 | two strings ip2long accepts with the same number are the same string |
| IPv4.LongDetermines | src/Event/Listener/Firewall.php:81-85 | the 32-bit number determines the four octets |
| Firewall.IsLocalHost | src/Event/Listener/Firewall.php:58-61 | true exactly for the strings 127.0.0.1, fe80::1 and ::1 |
| Firewall.IsLocalNetwork | src/Event/Listener/Firewall.php:70-86 | with a colon: true exactly when the address does not start with fc00::; without one: true exactly when ip2long parses it and its octets lie in 10/8, 172.16/12 or 192.168/16 |
| Firewall.RangesAsBlocks | src/Event/Listener/Firewall.php:81-85 | the six numeric range comparisons are equivalent to the three RFC 1918 prefixes |
| Firewall.Net10BoundsAreIp2Long | src/Event/Listener/Firewall.php:82 | ip2long of 10.0.0.0 and 10.255.255.255 are the bounds used |
| Firewall.Net172BoundsAreIp2Long | src/Event/Listener/Firewall.php:83 | ip2long of 172.16.0.0 and 172.31.255.255 are the bounds used |
| Firewall.Net192BoundsAreIp2Long | src/Event/Listener/Firewall.php:84 | ip2long of 192.168.0.0 and 192.168.255.255 are the bounds used |
| Firewall.OnKernelRequest | src/Event/Listener/Firewall.php:30-49 | a sub-request leaves the event unchanged; a refused top-level request gets the public 403 response with the fixed message and stops propagation; an admitted one leaves the event unchanged |
| Firewall.Admits | src/Event/Listener/Firewall.php:40-43 | an admitted request has no truthy proxy header, a REMOTE_ADDR that is present, not "" and not "0", and that address is local host or on the local network |
| Firewall.AdmitsCharacterised | src/Event/Listener/Firewall.php:40-43 | admission holds exactly when neither proxy header is truthy, REMOTE_ADDR is present, non-empty and not "0", and the address is a loopback spelling, a colon address outside fc00::, or a parsed address in a private block |
| Firewall.ProxyHeaderRefuses | src/Event/Listener/Firewall.php:40-41 | a truthy proxy header refuses the request whatever the address |
| Firewall.MissingAddressRefuses | src/Event/Listener/Firewall.php:42 | a missing or falsy REMOTE_ADDR refuses the request |
| Firewall.DirectClient | src/Event/Listener/Firewall.php:40-43 | with REMOTE_ADDR as the only parameter, admission is truthiness of the address and locality |
| Firewall.FormatShape | src/Event/Listener/Firewall.php:73 | a dotted quad has no colon, so it takes the IPv4 branch, and is never falsy |
| Firewall.IPv4LocalNetwork | src/Event/Listener/Firewall.php:77-85 | isLocalNetwork of a dotted quad holds exactly when the address is in a private block |
| Firewall.IPv4Admission | src/Event/Listener/Firewall.php:40-43 | a dotted quad is admitted exactly when it is in a private block or is 127.0.0.1 (the rest of 127/8 is refused) |
| Firewall.IPv6Admission | src/Event/Listener/Firewall.php:73-75 | a colon address is admitted exactly when it does not start with fc00:: |
| Firewall.UniqueLocalRefused | src/Event/Listener/Firewall.php:74 | fc00::1 is refused |
| Firewall.GlobalIPv6Admitted | src/Event/Listener/Firewall.php:74 | 2001:db8::1 is admitted |
| Firewall.PrefixTestIsLiteral | src/Event/Listener/Firewall.php:74 | fd00::1, fc00:1::1 and FC00::1 are admitted: the test is a case-sensitive string prefix |
| Firewall.IPv4Examples | src/Event/Listener/Firewall.php:60-85 | 8.8.8.8 and 127.0.0.2 are refused, 192.168.1.10 is admitted |
| Firewall.ColonFreeJoin | src/Event/Listener/Firewall.php:73 | a dotted join of decimal octets has no colon and at least one character per part and separator |
| StorageEntity.RemoveElement | src/AnimeDB/Bundle/CatalogBundle/Entity/Storage.php:248 | removeElement drops the first identical element and keeps the rest in order; when absent the collection is unchanged; the contents lose exactly one copy of the element |
| StorageEntity.RemovedElementsKept | src/AnimeDB/Bundle/CatalogBundle/Entity/Storage.php:248 | every element left after removeElement was in the collection before, and an element that occurred at most once is gone |
| StorageEntity.Storage.constructor | src/AnimeDB/Bundle/CatalogBundle/Entity/Storage.php:144-147 | a new storage has no id, no field values and an empty item collection |
| StorageEntity.Storage.SetName | src/AnimeDB/Bundle/CatalogBundle/Entity/Storage.php:166-170 | sets the name only and returns the same storage |
| StorageEntity.Storage.SetDescription | src/AnimeDB/Bundle/CatalogBundle/Entity/Storage.php:189-193 | sets the description only and returns the same storage |
| StorageEntity.Storage.SetPath | src/AnimeDB/Bundle/CatalogBundle/Entity/Storage.php:212-216 | sets the path only and returns the same storage |
| StorageEntity.Storage.SetType | src/AnimeDB/Bundle/CatalogBundle/Entity/Storage.php:269-273 | sets the type only and returns the same storage |
| StorageEntity.Storage.AddItem | src/AnimeDB/Bundle/CatalogBundle/Entity/Storage.php:235-239 | appends the item, points the item at this storage, returns the same storage, and keeps every item in the collection pointing at this storage |
| StorageEntity.Storage.RemoveItem | src/AnimeDB/Bundle/CatalogBundle/Entity/Storage.php:246-250 | the collection loses the item's first occurrence, the item's storage becomes null, nothing else is touched, and the back-links stay consistent when the item was in the collection at most once |
| StorageEntity.Storage.GetTypes | src/AnimeDB/Bundle/CatalogBundle/Entity/Storage.php:122-127 | the four type names in declaration order, pairwise distinct, and exactly the keys of the title table |
| StorageEntity.Storage.GetTypesWritable | src/AnimeDB/Bundle/CatalogBundle/Entity/Storage.php:310-313 | the writable types are exactly folder and external |
| StorageEntity.Storage.GetTypesReadable | src/AnimeDB/Bundle/CatalogBundle/Entity/Storage.php:320-323 | the readable types are exactly folder, external and external-r |
| StorageEntity.Storage.GetTypeTitle | src/AnimeDB/Bundle/CatalogBundle/Entity/Storage.php:300-303 | a title exists exactly when the type is one of the four names; folder, external, external-r and video each get their own fixed title from the table |
| StorageEntity.Storage.IsPathRequired | src/AnimeDB/Bundle/CatalogBundle/Entity/Storage.php:330-333 | true exactly when the type is folder or external |
| StorageEntity.Storage.IsPathValid | src/AnimeDB/Bundle/CatalogBundle/Entity/Storage.php:340-345 | appends exactly one violation, on `path` with the fixed message, when the path is required and falsy (null, "" or "0"), and none otherwise |
| StorageEntity.ValidateNew | src/AnimeDB/Bundle/CatalogBundle/Entity/Storage.php:340-345 | a fresh storage of a folder or external type with a falsy path yields exactly the one path violation; any other combination yields none |
| StorageEntity.TypePolicy | src/AnimeDB/Bundle/CatalogBundle/Entity/Storage.php:290-323 | writable types are readable, readable types are types, external-r is readable but not writable, video is neither |
| StorageEntity.TitlesDistinct | src/AnimeDB/Bundle/CatalogBundle/Entity/Storage.php:134-139 | no two types share a title |
| ComposerManipulator.RequireAssignable | src/Manipulator/Composer.php:30 | the assignment into `require` goes ahead exactly when `require` is absent, null, `false` or an array; it fails when `require` holds `true`, a number or a string |
| ComposerManipulator.IsRequired | src/Manipulator/Composer.php:42 | a package is set exactly when `require` is an array holding it with a non-null value (a version read back as a number included) |
| ComposerManipulator.WithPackage | src/Manipulator/Composer.php:29-31 | `require` exists as an array with the package at the given version; every other requirement and every other top-level key is unchanged |
| ComposerManipulator.WithoutPackage | src/Manipulator/Composer.php:41-45 | when the package is set the document keeps its keys, `require` stays an array (an empty one when the package was its only entry) and loses exactly that requirement; when it is not set the document is unchanged |
| ComposerManipulator.Composer.AddPackage | src/Manipulator/Composer.php:27-32 | the stored document becomes the document with the package added; when `require` holds a scalar that PHP cannot index, nothing is written |
| ComposerManipulator.Composer.RemovePackage | src/Manipulator/Composer.php:39-46 | the stored document becomes the document without the package; when the package is not set nothing is written at all |
| ComposerManipulator.AddIdempotent | src/Manipulator/Composer.php:27-32 | adding the same package and version twice equals adding it once |
| ComposerManipulator.AddOverwrites | src/Manipulator/Composer.php:30 | a later version of the same package replaces an earlier one |
| ComposerManipulator.AddCommutes | src/Manipulator/Composer.php:30 | adding two different packages gives the same document in either order, up to key order in `require` |
| ComposerManipulator.RemoveIdempotent | src/Manipulator/Composer.php:39-46 | removing twice equals removing once |
| ComposerManipulator.RemoveUnsets | src/Manipulator/Composer.php:42-43 | after removal the package is not set |
| ComposerManipulator.AddThenRemoveRestores | src/Manipulator/Composer.php:27-46 | adding a package absent from an existing `require` array and removing it restores the document exactly |
| ComposerManipulator.AddThenRemoveLeavesEmptyRequire | src/Manipulator/Composer.php:27-46 | without a `require` key the round trip leaves an empty `require` array behind |
| ComposerManipulator.RemoveThenAdd | src/Manipulator/Composer.php:27-46 | removing and then adding a package equals adding it, up to where the package stands in the key order of `require` |
| MigrateJob.PackageDir | src/AnimeDb/Bundle/AnimeDbBundle/Composer/Job/Migrate/Migrate.php:44 | the package directory is the vendor directory, then the package name, then a slash |
| MigrateJob.PackageDirsDistinct | src/AnimeDb/Bundle/AnimeDbBundle/Composer/Job/Migrate/Migrate.php:44 | under one vendor directory, two different package names give two different directories |
| MigrateJob.GetMigrationsConfig | src/AnimeDb/Bundle/AnimeDbBundle/Composer/Job/Migrate/Migrate.php:36-52 | a truthy option is returned as is; otherwise a result is an existing file, the yml file or the xml file when no yml exists; null exactly when there is no option and neither file exists |
| MigrateJob.OptionOverridesFiles | src/AnimeDb/Bundle/AnimeDbBundle/Composer/Job/Migrate/Migrate.php:40-42 | a truthy option wins whatever files exist |
| MigrateJob.YamlPreferred | src/AnimeDb/Bundle/AnimeDbBundle/Composer/Job/Migrate/Migrate.php:45-48 | without the option, an existing migrations.yml is chosen even when migrations.xml exists |
| MigrateJob.NormaliseNamespace | src/AnimeDb/Bundle/AnimeDbBundle/Composer/Job/Migrate/Migrate.php:93 | a leading backslash is removed; any other namespace, the empty one included, is unchanged |
| MigrateJob.StripsOnlyOne | src/AnimeDb/Bundle/AnimeDbBundle/Composer/Job/Migrate/Migrate.php:93 | only one backslash is removed: putting it back restores the namespace, and of two leading backslashes one stays |
| MigrateJob.GetNamespaceAndDirectory | src/AnimeDb/Bundle/AnimeDbBundle/Composer/Job/Migrate/Migrate.php:61-96 | for yml, the two keys when set, else ""; for xml, the first node of each query, else ""; any other extension gives both empty; the directory as read and the namespace normalised |

## Left out

- Symfony's request, event and response objects: the request becomes its
  request type and its server parameters (a string map), and the event
  becomes a class with the response a listener sets and the
  propagation-stopped flag. The response is reduced to its body, status and
  public flag.
- `ip2long` is a PHP builtin. It is modelled on `inet_pton`, which is what PHP
  calls, and leading zeros are refused. On 32-bit PHP the result is signed,
  but no range here crosses 2^31, so the answers are the same.
- Server parameters and package options that are not strings (PHP allows
  any value) are outside the model.
- The `Item` entity is not part of this model apart from its storage link and
  a `setStorage` that returns the item.
- The storage getters (`getId`, `getName`, `getItems`, ...) are plain field
  reads. The Doctrine mapping, identity generation and the Symfony
  `NotBlank`/`Choice` validators are not modelled. Violations are an appended
  list of field/message pairs.
- StorageEntity.Storage.GetTypeTitle: for an unset or unknown type the model
  returns None. That is the null PHP returns there; the undefined-index notice
  PHP raises on the way is not modelled.
- The keys of the item collection are not modelled. Doctrine's
  `removeElement` unsets the element's key without renumbering, and a later
  `$this->items[] = ...` takes the next key after the largest one. The model
  keeps only the order of the elements, so `get(k)` and `getKeys()` after a
  removal are outside it.
- A storage type that is not a string is outside the model. With a string type,
  PHP's loose `in_array` compares as exact string equality, and that is what the
  model uses.
- JSON decoding and encoding, the text of composer.json and the unseen
  `FileContent` parent class are not modelled. The document is the decoded PHP
  array without its key order. A JSON list is treated like an object, keyed by index strings.
- Key order in the composer document is not modelled. PHP arrays keep their
  keys in insertion order and `json_encode` writes them in that order.
- ComposerManipulator.AddCommutes: holds for PHP's `==`, not for `===` or the
  text written, because adding `p` then `q` lists them in that order.
- ComposerManipulator.RemoveThenAdd: holds for PHP's `==`, not for `===` or
  the text written, because a package removed and added again moves to the end
  of `require` instead of keeping its place.
- `isset` on a `require` that is a string is taken to be false. PHP would read a numeric package name as a string offset
  there; package names are never numeric.
- ComposerManipulator.Composer.AddPackage: an indexing error is reported as
  `ok == false`, not as an exception. The model follows PHP 8: a `require`
  holding `true`, a number or a string raises the error, while an absent,
  null or `false` one becomes a new array.
- For `removePackage`, the model cannot tell "not written" from "written
  unchanged" except through `unchanged(this)`. With no JSON text in the model,
  reformatting on write is not captured.
- `file_exists`, `file_get_contents`, `pathinfo`, the YAML parser and the DOM
  XPath queries are inputs: a set of existing paths, the file extension, the
  parsed YAML mapping (null values count as unset) and the node values per
  query. The `__DIR__`-relative vendor path is the `vendorDir` parameter.
- The `Job` base class, the container and the package object are not part of
  this model. Only the package name and its options are used.
- StorageController (CRUD, rendering, redirects, "not found" on a missing
  storage) and RefillController (plugin lookup, forms, templates) are
  framework glue and are not modelled.
