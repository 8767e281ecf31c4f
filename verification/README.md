# Verification of the rustydns core

A Dafny model of the parts of rustydns that decide what a client is told: the authority's
zone store and its signed mesh bundle, the filters on upstream answers, split-horizon routing,
the blocklist from text to verdict, the response-address denylist, block schedules, URL
redaction, live listener reload, and the oblivious DoH exchange.  Code that loops or mutates is
a method or a class, proved against a reference function or relation; what that reference
promises is proved as lemmas over all inputs, all runs or all reachable states.

`dafny verify dfyconfig.toml` checks the project.

| file | module | models |
|---|---|---|
| `names.dfy`, `spelling.dfy`, `casing.dfy`, `records.dfy` | `Names`, `Spelling`, `Casing`, `Records` | domain names as label lists, spellings of one name, full lowercasing, records |
| `text.dfy`, `words.dfy`, `sequences.dfy`, `sorting.dfy` | `Text`, `WordText`, `Sequences`, `Sorting` | lines, words, subsequences, the stable sort |
| `zone_store.dfy`, `lookup.dfy`, `authority.dfy`, `configured.dfy`, `static_text.dfy` | `ZoneStore`, `Lookup`, `Authority`, `ConfiguredAuthority`, `StaticText` | the merged record store, the alias chase, the authority object, what a configuration's lookups find |
| `reload.dfy` | `ReloadProtocol` | concurrent reloads and readers as interleaved steps |
| `mesh_wire.dfy`, `mesh_bundle.dfy`, `mesh_print.dfy` | `MeshWire`, `MeshBundle`, `MeshPrint` | the signed bundle: wire split, fields, groups, freshness, and printed documents |
| `answers.dfy`, `upstream.dfy`, `routes.dfy` | `AnswerSanity`, `UpstreamAnswers`, `Routing` | the answer filters, which positions of an answer survive them, route dispatch |
| `parser.dfy`, `list_text.dfy`, `list_notes.dfy` | `BlocklistParser`, `BlocklistText`, `BlocklistNotes` | the four list formats, printed rules, published lists with their comments |
| `engine.dfy`, `list_effect.dfy` | `BlocklistEngine`, `BlocklistEffect` | allowlist, state building and verdict; from text to verdict |
| `loader.dfy` | `BlocklistLoader` | reload rounds with last-good content |
| `denylist.dfy`, `schedule.dfy` | `IpDenylist`, `BlockSchedule` | address ranges, weekly windows |
| `redact.dfy` | `UrlRedaction` | credential redaction |
| `listeners.dfy`, `overlap.dfy`, `odoh.dfy` | `ListenerReload`, `ListenerOverlap`, `ObliviousExchange` | listener generations, the overlap check, the cached target key |

## Where the code and its description differ

- The authority is meant to answer for the same names before and after every mesh reload.  That
  fails for a mesh zone that starts with a dot, such as `.lan.` or the root, and for one with a
  capital letter outside ASCII, because owner names are lowercased in full
  (`crates/rustydns-core/src/record.rs:102`) and zones in ASCII only.  Configuration checking
  (`crates/rustydns-core/src/config.rs:1963-1979`) lets both through.  `UnsteadyZoneGrowsScope`
  gives a field map that loads for every such zone that a bundle can name, `UnsteadyZoneFileLoads`
  the signed file if the name fits on a line; `ScopeIsFixedIffZoneIsSteady` proves that this is
  the exact condition.
- A stored record is meant to be found by its own name and type.  Record names are neither trimmed
  nor kept to ASCII lowercasing when stored, but are when queried: `ConfiguredRecordIsFoundIff`
  proves that a configured record is found by its configured name if and only if that name has no
  white space around it and no character outside ASCII that lowercasing changes, or aliases lead
  to it.  `LostEntryExample` gives two entries that load and are lost.
- The blocklist verdict is meant to ignore letter case.  A name is lowercased in full, but only if
  it has an ASCII capital: `SpellingsAgreeIff` proves exactly which spellings share a verdict, and
  `AccentedSpellingsDiffer` gives a pair that does not.
- A name on the global allowlist is meant to be exempt everywhere.  A group stands on its own
  allowlist alone until a reload hands it a source: `GlobalExemptionInGroupsIff`.
- Repeated upstream records are meant to collapse whatever their spelling.  Owners are normalised
  before the comparison, alias targets are not: `SpellingIsIrrelevantIff` proves exactly when a
  respelling changes which records survive, and `TargetSpellingCanMatter` gives one that does.
- A wrapping block window that draws no warning is only the one that masks all seven days:
  `NoWarningIffEveryDay`.
- The always-skipped names of the list parser are already refused by its label guard:
  `SkipListIsRedundant`.

## Model

| member | source | states |
|---|---|---|
| `Names.TextualTestIsLabelSuffix` | `crates/rustydns-authority/src/lib.rs:551-559` | The textual zone test (equal, or ending in a dot and the zone) holds exactly when the zone's labels are a suffix of the name's labels, for all strings. |
| `Names.WhitespaceIff` | `crates/rustydns-authority/src/lib.rs:569-582` | White space is the Unicode property: the twenty-five code points listed. |
| `Text.NumberIsReadIff` | `crates/rustydns-authority/src/mesh.rs:537-548` | A text is a number exactly when it is one or more digits, perhaps behind a plus sign, of a value within the bound. |
| `Text.CharBytesIsLeast` | `crates/rustydns-blocklist/src/parser.rs:117-124` | Lengths are in UTF-8 bytes: a character takes the shortest sequence that can carry it. |
| `Names.WithinTransitive` | `crates/rustydns-authority/src/lib.rs:551-559` | Zone containment is transitive; with the next row and reflexivity it is a partial order. |
| `Names.WithinAntisymmetric` | `crates/rustydns-authority/src/lib.rs:551-559` | Two names that contain each other are equal. |
| `Names.ZonesOfANameFormAChain` | `crates/rustydns-resolver/src/lib.rs:471-489` | Any two zones that contain one name contain each other one way or the other, and of equal length only if equal: why a longest match is unique. |
| `Spelling.SameNameIff` | `crates/rustydns-resolver/src/lib.rs:1130-1133` | Two names have one canonical form exactly when they agree up to the case of ASCII letters and final dots. |
| `Spelling.SameDottedIff` | `crates/rustydns-resolver/src/lib.rs:471-489` | Two names agree once a missing final dot is supplied and the case dropped exactly when they agree up to the case of ASCII letters and a missing final dot. |
| `Casing.LoweringsAgreeIff` | `crates/rustydns-core/src/record.rs:99-107` | Full lowercasing and ASCII lowercasing of a text agree if and only if the Unicode tables change no character of it outside ASCII; for every lawful table, with forms of several characters and both small sigmas. |
| `Casing.FullLowerIsSettled` | `crates/rustydns-core/src/record.rs:99-107` | The result of full lowercasing holds no character that lowercasing would change, and is never shorter than the text. |
| `Casing.FullLowerIgnoresAsciiCase` | `crates/rustydns-blocklist/src/engine.rs:91-96` | Texts that differ in the case of ASCII letters alone have one full lowercase form. |
| `Records.OwnerNameText` | `crates/rustydns-core/src/record.rs:99-107` | A stored owner is the full lowercase name with a final dot added exactly to a name without one; it starts with white space exactly if the name does. |
| `ReloadProtocol.RunInv` | `crates/rustydns-authority/src/lib.rs:221-278` | The protocol invariant (one lock holder; snapshot, published bundle and watermark in step except between the two stores; loaded bundles verified; readers' and finished calls' tags bounded by the published one) holds in every state of every interleaving of any number of reloads and readers. |
| `ReloadProtocol.WatermarkNeverDecreases` | `crates/rustydns-authority/src/lib.rs:221-278` | In every run the watermark's generation time never falls, its nonce never falls while the time stays, and it never disappears; the same for the bundle behind the published snapshot. |
| `ReloadProtocol.PublishedMatchesWatermark` | `crates/rustydns-authority/src/lib.rs:221-278` | Whenever nobody holds the lock, the snapshot is exactly the one built from a verified bundle whose generation time and nonce are the watermark, or from no bundle when there is no watermark. |
| `ReloadProtocol.OnlyAcceptedBundlesChangeState` | `crates/rustydns-authority/src/lib.rs:221-278` | A step changes the snapshot only by storing a verified bundle with a later generation time than the watermark, or the same time and no lower nonce, and the watermark only to the tag of what was just published: failed loads, rejected bundles and readers change nothing. |
| `ReloadProtocol.RejectedIffOlder` | `crates/rustydns-authority/src/lib.rs:240-270` | Under the lock a bundle is rejected exactly when its generation time is earlier than the watermark's, or the same with a lower nonce; otherwise it is stored. |
| `ReloadProtocol.ReadersNeverGoBack` | `crates/rustydns-authority/src/lib.rs:221-278` | Every reader observes snapshots whose generation times never fall and whose nonces never fall while the time stays, and each observed snapshot is the one built from a verified bundle with those numbers, or from none. |
| `ReloadProtocol.CompletedReloadIsVisible` | `crates/rustydns-authority/src/lib.rs:221-278` | After a reload call has returned, accepted or rejected, no later read sees a snapshot with an earlier generation time than that call's candidate, or the same time and a lower nonce. |
| `Authority.Authority.ReloadMesh` | `crates/rustydns-authority/src/lib.rs:221-278` | One uninterrupted reload: a rollback error exactly when the watermark has a later generation time, or the same and a higher nonce; otherwise the exact new snapshot, and the bundle's two numbers as watermark; no change on error or without a configured bundle. |
| `Authority.Authority.LookUp` | `crates/rustydns-authority/src/lib.rs:298-311` | A lookup answers exactly as the reference relation over the current snapshot says. |
| `Authority.BundleKeepsScope` | `crates/rustydns-authority/src/lib.rs:494-515` | Merging a bundle minted for a mesh zone that does not start with a dot and that full lowercasing leaves alone never changes for which names the authority answers. |
| `Authority.UnsteadyZoneGrowsScope` | `crates/rustydns-authority/src/mesh.rs:562-570` | Failure of that law, for every mesh zone that a bundle can name and that starts with a dot or holds a character outside ASCII that lowercasing changes: at every trusted time the field map of a one-host bundle loads, is fresh, and makes the authority answer for a new name. |
| `Authority.UnsteadyZoneFileLoads` | `crates/rustydns-authority/src/mesh.rs:170-192` | The same as a file, for every such zone whose name fits on a line: under every signature that verifies, the signed file of that bundle loads, unless the zone name alone makes it too large. |
| `Authority.ScopeIsFixedIffZoneIsSteady` | `crates/rustydns-authority/src/lib.rs:324-329` | For every mesh zone: every bundle that any field map and any clock can load leaves the answered names as they are, over every static configuration, if and only if the zone does not start with a dot and full lowercasing leaves it alone, or no bundle can name it. |
| `Authority.UnsteadyZones` | `crates/rustydns-core/src/config.rs:1963-1979` | Two zones that configuration accepts and for which the law fails: the root, and an accented capital with a dot. |
| `Authority.OnlyNameableZonesLoad` | `crates/rustydns-authority/src/mesh.rs:550-558` | Whatever the fields, a bundle loads only for a zone without white space in front and without two dots at the end. |
| `Authority.BundleNamesZoneIff` | `crates/rustydns-authority/src/mesh.rs:550-558` | A bundle names a mesh zone exactly when its zone name is that zone up to white space around it, the case of ASCII letters and final dots. |
| `Authority.ScopeIsFixedOverEveryRun` | `crates/rustydns-authority/src/lib.rs:221-278` | Under such a zone, in every state of every interleaved run over loadable bundles the authority answers for exactly the names its static zones and mesh zone give. |
| `Authority.OwnerIsNormalIff` | `crates/rustydns-authority/src/lib.rs:569-582` | An owner name survives query normalisation if and only if it does not start with white space. |
| `Authority.StoredRecordIsFoundIff` | `crates/rustydns-authority/src/lib.rs:298-311` | A stored record in scope is returned by the lookup of its own stored name and type if and only if that name does not start with white space. |
| `Authority.UntrimmedRecordIsUnreachable` | `crates/rustydns-authority/src/lib.rs:381-488` | The exact complement: a stored record whose owner starts with white space is in no answer to any query, not even through aliases. |
| `Authority.StaticStoreIsWellStored` | `crates/rustydns-authority/src/lib.rs:124-149` | The store of any admissible configuration keeps every record under its owner and every alias target normalised. |
| `Authority.MergedStoreIsWellStored` | `crates/rustydns-authority/src/lib.rs:494-515` | Merging a bundle keeps that invariant. |
| `Authority.EveryRecordIsInScope` | `crates/rustydns-authority/src/lib.rs:607-651` | Every configured record and every bundle record lies in a zone the authority answers for. |
| `ConfiguredAuthority.NewAuthority` | `crates/rustydns-authority/src/lib.rs:124-190` | Construction fails exactly when some record is malformed or claims a refused zone; otherwise the authority serves every entry under its owner with its configured data and nothing else, claims the apexes and declared zones, publishes them with the initial bundle, and starts its watermark at the bundle's two numbers. |
| `ConfiguredAuthority.SnapshotIsWellStored` | `crates/rustydns-authority/src/lib.rs:494-515` | Every snapshot of an admissible configuration, with or without a bundle minted for its zone, keeps every record under its owner and every alias target normalised. |
| `ConfiguredAuthority.ConfiguredDataIsServed` | `crates/rustydns-authority/src/lib.rs:658-768` | Over every admissible configuration and minted bundle, the lookup of a configured key name and type holds a record with the configured address, text parts, preference, priority, weight and port, its names up to white space, ASCII case and final dot, and the configured lifetime, or 300 exactly if that is 0. |
| `ConfiguredAuthority.AnsweredDataIsConfigured` | `crates/rustydns-authority/src/lib.rs:298-311` | Every record of every answer is a bundle record or carries the data and lifetime of a configured entry in that sense. |
| `StaticText.SrvEntryIsRead` | `crates/rustydns-authority/src/lib.rs:742-760` | The text of an SRV entry is read as priority, weight, port and host in that order, with the type in any letter case. |
| `StaticText.MxEntryIsRead` | `crates/rustydns-authority/src/lib.rs:709-741` | The text of an MX entry is read as preference and host in that order. |
| `StaticText.AddressEntryIsRead` | `crates/rustydns-authority/src/lib.rs:664-685` | A and AAAA entries are read from their address field with the parser of their own family. |
| `StaticText.TextEntryIsRead` | `crates/rustydns-authority/src/lib.rs:686-708` | CNAME, PTR, NS and TXT entries are read from their whole target, a TXT one only up to 255 bytes. |
| `StaticText.SrvEntryIsServed` | `crates/rustydns-authority/src/lib.rs:298-311` | From text to answer: looking up a configured service finds priority, weight and port as they were written, the host normalised, and the lifetime. |
| `ConfiguredAuthority.OwnerIsKeyIff` | `crates/rustydns-core/src/record.rs:99-107` | A configured name is stored under its own query key if and only if it has no white space around it and no character outside ASCII that lowercasing changes. |
| `ConfiguredAuthority.RecordIsKeyedIff` | `crates/rustydns-authority/src/lib.rs:124-149` | Over every admissible configuration and minted bundle: a configured record is stored under the key of its configured name if and only if the name meets that condition. |
| `ConfiguredAuthority.ConfiguredRecordIsFoundIff` | `crates/rustydns-authority/src/lib.rs:298-311` | Over every admissible configuration and minted bundle: looking up a configured record by its configured name and type finds it if and only if the name meets that condition, or aliases lead from its key to the record within eight in-scope hops. |
| `ConfiguredAuthority.LostEntryIsAdmissible` | `crates/rustydns-authority/src/lib.rs:607-651` | Lost entries are easy to write: a space or an accented capital in front of any admissible plain name of several labels makes another admissible name that misses the condition. |
| `ConfiguredAuthority.LostEntryIsNeverFound` | `crates/rustydns-authority/src/lib.rs:298-311` | The only address record of a configuration, under a name that misses the condition, is in no answer to a lookup of that name, whatever bundle is merged in. |
| `ConfiguredAuthority.LostEntryExample` | `crates/rustydns-authority/src/lib.rs:124-149` | A concrete one: under the mesh zone lan., the name h.lan. with a space or an accented capital in front loads and is never found by its own name. |
| `ConfiguredAuthority.AnswerHoldsIff` | `crates/rustydns-authority/src/lib.rs:298-311` | An answer holds a stored record exactly when the record is stored at the key or aliases lead to it from there. |
| `ConfiguredAuthority.LoadedRecordIsFound` | `crates/rustydns-authority/src/lib.rs:298-311` | Every record of a bundle loaded from a payload is found by its own name and type, over every admissible configuration. |
| `ConfiguredAuthority.AliasAnswer` | `crates/rustydns-authority/src/lib.rs:381-488` | Over every admissible configuration and minted bundle, an answer without direct records is a linked chain of at most nine stored in-scope aliases with distinct owners, each the first alias at its name, followed by all records of the type at the last target; or by nothing, because that target is out of scope, already in the chain or holds neither, or the chain is full. |
| `ConfiguredAuthority.AliasAnswerIsExact` | `crates/rustydns-authority/src/lib.rs:381-488` | In that answer the chain that reaches records within eight in-scope hops is returned whole with all of them, and no other record of the type appears. |
| `ZoneStore.NameWithinZoneIsLabelSuffix` | `crates/rustydns-authority/src/lib.rs:551-559` | `name_within_zone` decides label-suffix containment. |
| `ZoneStore.NormalisedHead` | `crates/rustydns-authority/src/lib.rs:569-582` | No normalised name is empty or starts with white space. |
| `ZoneStore.NormalIff` | `crates/rustydns-authority/src/lib.rs:569-582` | The normal form of a text is the one name without white space around it, without ASCII capitals and with a final dot. |
| `ZoneStore.ApexIsParent` | `crates/rustydns-authority/src/lib.rs:607-651` | The zone claimed for a record is its parent (itself for a single label), contains it, and is refused exactly for the root and for a top-level domain that is neither the mesh zone nor declared. |
| `ZoneStore.LoadStaticRecords` | `crates/rustydns-authority/src/lib.rs:124-149` | Loading fails exactly when some entry is malformed or claims a refused zone; otherwise the store groups exactly the converted records by owner in order, serves every entry with its configured data, and knows their apexes once each. |
| `ZoneStore.AddDeclaredZones` | `crates/rustydns-authority/src/lib.rs:151-159` | The zones after this step are the apexes and the declared zones other than the mesh zone, without duplicates. |
| `ZoneStore.BuildSnapshot` | `crates/rustydns-authority/src/lib.rs:494-515` | The loop builds exactly the reference snapshot: static records first, bundle records appended under their owners, owner names added as zones. |
| `ZoneStore.MergeExact` | `crates/rustydns-authority/src/lib.rs:494-515` | A record is in the merged store under a name exactly when it was there before or is a bundle record of that name: nothing lost, invented or misfiled. |
| `ZoneStore.ZonesWithMembers` | `crates/rustydns-authority/src/lib.rs:494-515` | The merged zones are the static zones and the bundle's owner names. |
| `Lookup.Chase` | `crates/rustydns-authority/src/lib.rs:409-488` | The alias loop produces a chase of the view: it passes in-scope, record-free, unvisited names and stops at the first that is not, or after the ninth alias. |
| `Lookup.LookUp` | `crates/rustydns-authority/src/lib.rs:298-311` | `None` exactly outside every zone; direct records for CNAME and ANY queries or when there are any; otherwise nothing or the alias chase. |
| `Lookup.DirectAnswerIs` | `crates/rustydns-authority/src/lib.rs:381-408` | Without a chase the answer is, in stored order and as often as stored: everything at the name for ANY, the aliases for CNAME, and for another type the records with that data. |
| `Lookup.QuerySpellingIsIrrelevant` | `crates/rustydns-authority/src/lib.rs:298-311` | White space around the name and type, the case of their ASCII letters and a missing final dot never change an answer, and names that differ otherwise have different keys. |
| `Lookup.ChaseIsLinkedChain` | `crates/rustydns-authority/src/lib.rs:409-488` | The aliases of every chase form one linked chain from the query name, of at most nine, with pairwise distinct in-scope owners. |
| `Lookup.ReachingChainHasNoCycle` | `crates/rustydns-authority/src/lib.rs:409-488` | A chain that first meets records of the type after some hops visits no name twice before that. |
| `Lookup.ChaseComplete` | `crates/rustydns-authority/src/lib.rs:359-488` | If the unbounded chain first meets records of the type within eight in-scope hops, the answer is exactly that chain followed by all of those records (section 3.6.2 of RFC 1034). |
| `Lookup.ChaseSound` | `crates/rustydns-authority/src/lib.rs:359-488` | A record of the type is in the answer only at the end of a chain that reaches it within eight in-scope hops. |
| `Lookup.ChaseUnique` | `crates/rustydns-authority/src/lib.rs:409-488` | The chase is determined by the stored records: two answers to one question are equal. |
| `MeshWire.SplitInvertsRender` | `crates/rustydns-authority/src/mesh.rs:241-258` | Splitting gives back payload and signature of every rendered file whose payload ends in a newline and whose signature has no white space, even if the payload contains the marker. |
| `MeshWire.CutIsExact` | `crates/rustydns-authority/src/mesh.rs:241-258` | For every text the cut is at the last marker: the signed part is the prefix up to and including its newline, the rest follows the marker, and there is no cut exactly without a marker. |
| `MeshWire.DecodeHexFixed` | `crates/rustydns-authority/src/mesh.rs:572-594` | Decoding succeeds exactly on texts that spell the required number of bytes, and returns those bytes. |
| `MeshWire.HexTextSpells` | `crates/rustydns-authority/src/mesh.rs:572-594` | Printed hex spells the printed bytes and no others, so decoding inverts printing. |
| `MeshWire.HexIgnoresCase` | `crates/rustydns-authority/src/mesh.rs:572-594` | Capital digits spell the same bytes. |
| `MeshWire.CollectFields` | `crates/rustydns-authority/src/mesh.rs:270-300` | The loop succeeds exactly when every entry is a key-value line and no key repeats, and then holds exactly their pairs. |
| `MeshWire.LineIsFieldIff` | `crates/rustydns-authority/src/mesh.rs:270-300` | A line is read as a field exactly when the two sides of its first equals sign are key and value up to white space around them. |
| `MeshWire.ParseFields` | `crates/rustydns-authority/src/mesh.rs:270-300` | The same for a whole payload, with empty lines skipped. |
| `MeshWire.ParseInvertsPrint` | `crates/rustydns-authority/src/mesh.rs:270-300` | The entries of a printed payload are the printed fields, for all trimmed newline-free fields with keys free of the equals sign. |
| `MeshWire.PrintedMapParsesBack` | `crates/rustydns-authority/src/mesh.rs:270-300` | However the fields of a map are ordered in the payload, parsing succeeds and the only map it can return is that map. |
| `MeshBundle.MeshNameScope` | `crates/rustydns-authority/src/mesh.rs:562-570` | A minted name lies in the mesh zone if and only if the zone does not start with a dot and full lowercasing leaves it alone, and is then exactly one label below it. |
| `MeshBundle.LabelIsValidIff` | `crates/rustydns-authority/src/mesh.rs:517-535` | A label is accepted exactly when it is one to 63 ASCII characters, none of them a dot. |
| `MeshBundle.PiecesAreTrimmed` | `crates/rustydns-authority/src/mesh.rs:403-407` | White space around the pieces of an alias list does not matter, and empty pieces vanish. |
| `MeshBundle.GroupIsReadIff` | `crates/rustydns-authority/src/mesh.rs:359-407` | A record group is read as given names, address, lifetime and node exactly when its fields decode to them, its type and address kind are the supported ones, and every name is a single label. |
| `MeshBundle.ReadInvertsPrint` | `crates/rustydns-authority/src/mesh.rs:359-407` | Reading a record group from printed fields gives back its label, aliases in order, address, lifetime and node. |
| `MeshBundle.BuildRecords` | `crates/rustydns-authority/src/mesh.rs:409-417` | A group yields one record per name, in order, with the minted name and the group's address, lifetime and node. |
| `MeshBundle.HeaderIsReadIff` | `crates/rustydns-authority/src/mesh.rs:302-341` | A header is read as given values exactly when the six fields say so, the version is 1, the zone matches, the lifetime is not empty and the record count is within its bound. |
| `MeshBundle.BuildAll` | `crates/rustydns-authority/src/mesh.rs:345-349` | The loop succeeds exactly when every announced group is readable, and then returns their records group after group. |
| `MeshBundle.RecordsComeFromEntries` | `crates/rustydns-authority/src/mesh.rs:345-349` | Every record of a bundle publishes a name of one of its groups. |
| `MeshBundle.EntriesArePublished` | `crates/rustydns-authority/src/mesh.rs:345-349` | Every name of every group is published. |
| `MeshBundle.BuildLoadedBundle` | `crates/rustydns-authority/src/mesh.rs:302-357` | A bundle is built exactly when header and groups are readable; it carries the header's times and nonce, the groups' records in order, and only names minted for the zone; no other bundle is built from those fields. |
| `MeshBundle.FreshnessIsExactAndMonotone` | `crates/rustydns-authority/src/mesh.rs:433-466` | On every 64-bit clock the saturating test is the exact one, and under a trusted clock a bundle that stops being fresh never becomes fresh again. |
| `MeshBundle.LoadMeshBundle` | `crates/rustydns-authority/src/mesh.rs:170-192` | A file that is within the size limit, signed over exactly its payload, well formed, for this zone, readable and fresh loads as the bundle built from its payload's fields; any other file fails. |
| `MeshBundle.LoadIsDetermined` | `crates/rustydns-authority/src/mesh.rs:170-192` | A file loads as at most one bundle, and only with names minted for the zone. |
| `MeshPrint.FieldListDistinct` | `crates/rustydns-authority/src/mesh.rs:270-300` | No two fields of a bundle document, header and all groups, have the same name, so none is refused as a duplicate. |
| `MeshPrint.DocIsBuilt` | `crates/rustydns-authority/src/mesh.rs:302-357` | Building from a document's fields gives exactly the document's records, times and nonce. |
| `MeshPrint.WrittenFieldsAreBuilt` | `crates/rustydns-authority/src/mesh.rs:302-417` | A field map with the keys of the format written out, whatever else it holds, builds the bundle of the document it spells. |
| `MeshPrint.SignedFileLoads` | `crates/rustydns-authority/src/mesh.rs:170-192` | Round trip of the whole load: the signed file of a readable document loads exactly when it is small enough, its signature verifies and it is fresh, and then as the document's records in order, times and nonce. |
| `AnswerSanity.AllowedNames` | `crates/rustydns-resolver/src/lib.rs:1145-1159` | The growing loop ends on every answer, cyclic ones included, with exactly the names reachable from the query name along alias links. |
| `AnswerSanity.BailiwickIgnoresOrder` | `crates/rustydns-resolver/src/lib.rs:1130-1177` | Reordering an answer never changes which records (with multiplicity) are within bailiwick. |
| `AnswerSanity.SaneExact` | `crates/rustydns-resolver/src/lib.rs:1036-1045` | A record of the answer has its identity in the output exactly when it is reachable and of the requested type, and each identity is there once. |
| `AnswerSanity.OutputLinksSuffice` | `crates/rustydns-resolver/src/lib.rs:1036-1098` | Every output record is still reachable through the output's own aliases: later stages never break a link the walk relied on. |
| `AnswerSanity.SaneIsIdempotent` | `crates/rustydns-resolver/src/lib.rs:1036-1098` | Running the pipeline on its own output drops nothing. |
| `AnswerSanity.SaneIsSubsequence` | `crates/rustydns-resolver/src/lib.rs:1036-1098` | The output is a subsequence of the answer. |
| `AnswerSanity.Answer.FilterOutOfBailiwick` | `crates/rustydns-resolver/src/lib.rs:1130-1177` | In place: exactly the reachable-owner records stay, in order, and the count is the length difference. |
| `AnswerSanity.Answer.FilterWrongType` | `crates/rustydns-resolver/src/lib.rs:1065-1081` | In place: the result is a subsequence that holds every alias and every record of the requested type as often as before and nothing else; the count is the length difference. |
| `AnswerSanity.Answer.FilterPrivateRdata` | `crates/rustydns-resolver/src/lib.rs:1010-1031` | In place: the result is a subsequence that holds every record without a private address as often as before and nothing else; the count is the length difference. |
| `AnswerSanity.Answer.DedupIdentical` | `crates/rustydns-resolver/src/lib.rs:1089-1098` | In place: exactly the first record of each identity stays, in order, and the count is the length difference. |
| `AnswerSanity.Answer.FilterAnswerSanity` | `crates/rustydns-resolver/src/lib.rs:1036-1045` | In place: the three stages in order, with the total count equal to the total length difference. |
| `UpstreamAnswers.SanitiseUpstream` | `crates/rustydns-resolver/src/lib.rs:400-430` | What an arm hands on is, in order, exactly the positions of the answer whose owner an alias chain of the answer links to the query name, up to the case of ASCII letters and final dots, that are aliases or of the type asked, are no private address that is to be dropped, and repeat no earlier owner, data and lifetime; with the exact drop count. |
| `UpstreamAnswers.LinkedIff` | `crates/rustydns-resolver/src/lib.rs:1130-1175` | Reachability of canonical names in the answer's graph is the same as an alias chain between the names as they are spelt. |
| `UpstreamAnswers.OutcomeUnique` | `crates/rustydns-resolver/src/lib.rs:1036-1046` | The answer and the question determine what is handed on. |
| `UpstreamAnswers.DirectRecordIsServed` | `crates/rustydns-resolver/src/lib.rs:1130-1175` | A record of the type asked whose owner is the query name, however both are spelt, is handed on, unless it is a private address that is to be dropped. |
| `UpstreamAnswers.UnlinkedIsDropped` | `crates/rustydns-resolver/src/lib.rs:1130-1175` | Nothing is handed on that no alias chain links to the query name, or that is neither an alias nor of the type asked. |
| `UpstreamAnswers.OwnerSpellingIsIrrelevant` | `crates/rustydns-resolver/src/lib.rs:959-974` | The case of ASCII letters and a missing final dot of the owners on the wire change nothing at all. |
| `UpstreamAnswers.SpellingKeepsWanted` | `crates/rustydns-resolver/src/lib.rs:1130-1175` | Which positions are linked, of the type and public does not depend on the spelling of the query name, the owners or the alias targets. |
| `UpstreamAnswers.SpellingIsIrrelevantIff` | `crates/rustydns-resolver/src/lib.rs:1089-1098` | Respelling leaves the surviving positions as they are if and only if it neither makes nor breaks a repetition among those positions. |
| `UpstreamAnswers.QuerySpellingIsIrrelevant` | `crates/rustydns-resolver/src/lib.rs:1130-1175` | The spelling of the query name never changes what is handed on. |
| `UpstreamAnswers.TargetSpellingCanMatter` | `crates/rustydns-resolver/src/lib.rs:1089-1098` | A concrete respelling that matters: aliases of one name to two spellings of another are two records, and one once they are spelt alike. |
| `Routing.ValidateRouteZones` | `crates/rustydns-core/src/config.rs:2338-2362` | Validation accepts exactly the tables whose zones are named, dotted, not the root, and distinct after trimming and lowercasing. |
| `Routing.ValidatedTableIsDistinct` | `crates/rustydns-core/src/config.rs:2338-2362` | A route table built from validated zones has distinct keys. |
| `Routing.SortRoutes` | `crates/rustydns-resolver/src/lib.rs:313-313` | The sort returns a rearrangement of the table, longest zone first. |
| `Routing.FirstMatchIsLongest` | `crates/rustydns-resolver/src/lib.rs:471-489` | In a longest-first table, the first match is the longest match, and there is none exactly when nothing matches. |
| `Routing.LongestZoneWins` | `crates/rustydns-resolver/src/lib.rs:471-489` | Dispatch returns the unique longest configured zone that contains the query name; every other zone that contains it is shorter and contains the chosen one; none is returned exactly when none contains the name. |
| `Routing.InZoneIff` | `crates/rustydns-resolver/src/lib.rs:471-489` | The textual test decides, for every zone but the root, whether an end of the query name that starts at a label is the zone up to the case of ASCII letters and a missing final dot. |
| `Routing.DispatchAsWritten` | `crates/rustydns-resolver/src/lib.rs:471-489` | Over zones and query name as they are written: nothing is chosen exactly if the name lies in no zone, and otherwise the route of the longest zone it lies in. |
| `Routing.QuerySpellingIsIrrelevant` | `crates/rustydns-resolver/src/lib.rs:471-489` | The case of ASCII letters and a missing final dot of the query name never change the chosen route. |
| `Routing.DeclarationOrderIsIrrelevant` | `crates/rustydns-resolver/src/lib.rs:293-313` | Two tables with the same routes in different order dispatch every name alike. |
| `BlocklistParser.DomainIsAcceptedIff` | `crates/rustydns-blocklist/src/parser.rs:305-346` | A text is accepted as a given domain exactly when that is its trimmed lowercase form without trailing dots and is printable ASCII of 1 to 253 bytes with labels of 1 to 63 bytes (section 2.3.4 of RFC 1035). |
| `BlocklistParser.EntryIsAcceptedIff` | `crates/rustydns-blocklist/src/parser.rs:366-395` | The same for entries, which must in addition be below a top-level domain. |
| `BlocklistParser.SkipListIsRedundant` | `crates/rustydns-blocklist/src/parser.rs:408-422` | The list of always-skipped names changes nothing: validation accepts none of them. |
| `BlocklistParser.FirstFormat` | `crates/rustydns-blocklist/src/parser.rs:74-101` | If any line is telling, the format is that of the first telling line; if none is, it is plain. |
| `BlocklistParser.LineEntriesGood` | `crates/rustydns-blocklist/src/parser.rs:117-290` | Whatever the line and the format, every entry of the line is canonical and below a top-level domain. |
| `BlocklistParser.CollectEntries` | `crates/rustydns-blocklist/src/parser.rs:117-240` | The loop of the format parsers returns the entries of all lines in order. |
| `BlocklistParser.ParsedEntriesAreCanonical` | `crates/rustydns-blocklist/src/parser.rs:74-395` | The same for whole contents: every parsed entry of any text is canonical, with at least two labels. |
| `WordText.WordsInvertJoin` | `crates/rustydns-blocklist/src/parser.rs:196-213` | Splitting at white space inverts joining with spaces. |
| `BlocklistText.HostNameIsAccepted` | `crates/rustydns-blocklist/src/parser.rs:305-395` | Validation keeps every canonical host name as it is. |
| `BlocklistText.RuleIsClassified` | `crates/rustydns-blocklist/src/parser.rs:74-101` | Every printed rule is recognised as a line of its own format, among hosts, plain, RPZ and AdGuard. |
| `BlocklistNotes.RuleWithTailIsRead` | `crates/rustydns-blocklist/src/parser.rs:117-290` | Every printed rule of every format is read back as exactly the entries it means, with any comment of its format behind it, and in AdGuard with anything behind it. |
| `BlocklistNotes.RuleWithTailIsTold` | `crates/rustydns-blocklist/src/parser.rs:74-101` | Such a line tells the format of its rule. |
| `BlocklistNotes.UntellingIff` | `crates/rustydns-blocklist/src/parser.rs:74-84` | Detection passes over a line exactly when it is blank or its first character that is no white space is one of the four marks of comments and headers. |
| `BlocklistNotes.InsertedLineChangesNothing` | `crates/rustydns-blocklist/src/parser.rs:74-290` | Into any content, between any two lines: a blank line, a comment of the detected format, and behind a telling line also one of more than 512 bytes or from whose words the format takes nothing, changes no entry. |
| `BlocklistNotes.InsertedCommentChangesNothing` | `crates/rustydns-blocklist/src/parser.rs:74-290` | In particular blank lines and lines that start with a hash, whatever the content. |
| `BlocklistNotes.PolicyWords` | `crates/rustydns-blocklist/src/parser.rs:196-240` | RPZ words in any letter case: a dot blocks the name or, behind a star, the names below it; either spelling of passthru exempts it. |
| `BlocklistNotes.ParseInvertsPublish` | `crates/rustydns-blocklist/src/parser.rs:74-290` | A published list of any length in any of the four formats, with blank lines and comments anywhere, comments behind its rules and other zone records in an RPZ, parses into exactly the entries its rules mean, in order. |
| `BlocklistNotes.Parse` | `crates/rustydns-blocklist/src/parser.rs:104-111` | Whatever the content, every returned entry is canonical; if the content is a published list, the entries are exactly what its rules mean. |
| `BlocklistEffect.RuleEffect` | `crates/rustydns-blocklist/src/parser.rs:117-290` | What each rule's entries block and exempt: its name, the names below it, or both, as its format says. |
| `BlocklistEffect.PublishedListVerdict` | `crates/rustydns-blocklist/src/engine.rs:83-123` | From text to verdict: after loading a published list, comments included, a name is blocked exactly when a rule or the regex set targets it and neither the allowlist nor, for a trusted source, an exception of the list exempts it. |
| `BlocklistEngine.WalkParents` | `crates/rustydns-blocklist/src/engine.rs:106-113` | The walk that cuts one label at a time finds a listed parent exactly when some proper label suffix is listed. |
| `BlocklistEngine.FromEntries` | `crates/rustydns-blocklist/src/allowlist.rs:39-61` | The loop builds exactly the exact names and suffixes that the entries spell. |
| `BlocklistEngine.AllowEntryMeaning` | `crates/rustydns-blocklist/src/allowlist.rs:39-61` | A plain entry that is lowercase in every script exempts exactly itself; a starred or dotted entry exempts exactly the names below it and not the name itself. |
| `BlocklistEngine.AllowEntriesAddUp` | `crates/rustydns-blocklist/src/allowlist.rs:39-61` | A list of entries exempts exactly what its parts exempt. |
| `BlocklistEngine.ExtendExact` | `crates/rustydns-blocklist/src/allowlist.rs:67-74` | Exactly the non-empty normalised entries are added, to the exact names only. |
| `BlocklistEngine.IsAllowed` | `crates/rustydns-blocklist/src/allowlist.rs:88-124` | The lookup says yes exactly for names that are listed or have a proper label suffix listed, whatever the case of their ASCII letters and their trailing dots. |
| `BlocklistEngine.AddSource` | `crates/rustydns-blocklist/src/engine.rs:206-231` | One source adds exactly its exact names and parents, its exceptions only if trusted, and otherwise counts them as discarded. |
| `BlocklistEngine.BuildState` | `crates/rustydns-blocklist/src/engine.rs:197-273` | A state holds exactly the union of its sources' entries, with exceptions of trusted sources only, and counts exactly the discarded ones. |
| `BlocklistEngine.IsBlocked` | `crates/rustydns-blocklist/src/engine.rs:83-123` | The fast lookup decides the reference verdict on the query form (no trailing dots; full lowercase if there is an ASCII capital): not exempt, and listed exactly, below a listed parent, or matched by the regex set. |
| `BlocklistEngine.CaseAndDotsAreIgnored` | `crates/rustydns-blocklist/src/engine.rs:83-123` | ASCII names that differ only in case and trailing dots get one verdict from every state and every regex set, that on their canonical form. |
| `BlocklistEngine.SpellingsAgreeIff` | `crates/rustydns-blocklist/src/engine.rs:83-123` | For all names that differ only in the case of ASCII letters and in trailing dots: every state and every regex set gives them one verdict if and only if both or neither have an ASCII capital, or lowercasing changes no character outside ASCII. |
| `BlocklistEngine.AccentedSpellingsDiffer` | `crates/rustydns-blocklist/src/engine.rs:91-96` | A concrete pair that some regex set tells apart: an accented capital followed by X.com and by x.com. |
| `BlocklistEngine.UntrustedSourceNeverUnblocks` | `crates/rustydns-blocklist/src/engine.rs:197-273` | Adding an untrusted source at any position never unblocks any name. |
| `BlocklistEngine.TrustedSourceUnblocksOnlyItsAllows` | `crates/rustydns-blocklist/src/engine.rs:197-273` | Adding a trusted source can unblock only names equal to one of its normalised exceptions. |
| `BlocklistEngine.SourceOrderIsIrrelevant` | `crates/rustydns-blocklist/src/engine.rs:197-273` | Order and repetition of sources never change a verdict. |
| `BlocklistEngine.TwoLabelNameNeedsExactEntry` | `crates/rustydns-blocklist/src/engine.rs:83-123` | Whatever canonical entries the sources hold, a name of at most two labels is blocked only if listed exactly or matched by a regex. |
| `BlocklistEffect.SecondLevelNeedsExactEntry` | `crates/rustydns-blocklist/src/engine.rs:197-231` | The same for any texts whatever, through the real parser: no list can take out a whole second level. |
| `BlocklistEngine.Engine.constructor` | `crates/rustydns-blocklist/src/engine.rs:151-190` | A new engine keeps its parser, key, regex set and allowlist, and lists no name yet: its states, global and per group, hold exactly the configured allowlists. |
| `BlocklistEngine.Engine.LoadManyWithTrust` | `crates/rustydns-blocklist/src/engine.rs:283-286` | A load replaces the global state by that of the sources over the configured allowlist and leaves the groups. |
| `BlocklistEngine.Engine.LoadGroup` | `crates/rustydns-blocklist/src/engine.rs:290-306` | A group load replaces that group's state only; an unknown group is ignored. |
| `BlocklistEngine.Engine.IsBlockedForGroup` | `crates/rustydns-blocklist/src/engine.rs:330-335` | A known group is judged by its own state, everything else by the global one. |
| `BlocklistLoader.LatestIsMostRecentSuccess` | `crates/rustydnsd/src/blocklist_loader.rs:260-279` | The retained content of a source is that of its most recent success, and there is none exactly if it never succeeded. |
| `BlocklistLoader.RoundHandsOverLatest` | `crates/rustydnsd/src/blocklist_loader.rs:159-257` | For every history and round with distinct source keys: the handed-over sources are, in order and with their trust, exactly those that ever succeeded, each with its most recent content; the failures are exactly the others. |
| `BlocklistLoader.SuccessIsNeverForgotten` | `crates/rustydnsd/src/blocklist_loader.rs:159-279` | A source that has succeeded once is handed over in every later round. |
| `BlocklistLoader.SortByIndex` | `crates/rustydnsd/src/blocklist_loader.rs:223-223` | Sorting by index rearranges the fetches into ascending index order. |
| `BlocklistLoader.CompletionOrderIsIrrelevant` | `crates/rustydnsd/src/blocklist_loader.rs:200-223` | Whatever order the concurrent fetches complete in, sorting restores the configuration's order. |
| `BlocklistLoader.Loader.Settle` | `crates/rustydnsd/src/blocklist_loader.rs:159-257` | One source: the content handed over is the most recent success including this attempt, and the retained map stays the map of most recent successes. |
| `BlocklistLoader.TagsComeFromConfiguration` | `crates/rustydnsd/src/blocklist_loader.rs:159-257` | Every source a round hands over is the latest content of a configured file, trusted, or of a configured URL, trusted exactly if the operator lists that URL. |
| `BlocklistLoader.Loader.Gather` | `crates/rustydnsd/src/blocklist_loader.rs:159-257` | A round over configured files and URLs tags each by its configuration and hands over and counts what the reference functions say, for every completion order of the fetches. |
| `BlocklistLoader.Loader.ReloadGroup` | `crates/rustydnsd/src/blocklist_loader.rs:122-152` | One group's turn: its state is that of its sources over the global and its own allowlist together, or unchanged without sources; no other group and not the global state change. |
| `BlocklistLoader.Loader.Reload` | `crates/rustydnsd/src/blocklist_loader.rs:87-155` | A whole reload: the global state and every group hold exactly what their rounds handed over, and a set without sources keeps its state. |
| `BlocklistLoader.GlobalExemptionInGroupsIff` | `crates/rustydnsd/src/blocklist_loader.rs:122-152` | Over every sequence of reloads, a name the global allowlist exempts is blocked for a group if and only if no reload has handed the group a source yet, its own allowlist does not exempt the name, and a regex matches it. |
| `IpDenylist.MaskedEqualityIsTopBits` | `crates/rustydns-core/src/ip_denylist.rs:96-158` | Equality under the mask is equality of the top prefix bits, for every width and every prefix from 0 to full. |
| `IpDenylist.MappedRewriteIsExact` | `crates/rustydns-core/src/ip_denylist.rs:126-145` | Rewriting a mapped entry with prefix 96 or longer into an IPv4 rule keeps exactly the IPv6 addresses the raw rule matched (section 2.5.5.2 of RFC 4291). |
| `IpDenylist.EntrySpellings` | `crates/rustydns-core/src/ip_denylist.rs:96-175` | With any white space around its parts: a bare address is a single host; an address with a prefix is that range, or an error exactly when the prefix is longer than 32 or 128 bits. |
| `IpDenylist.RuleHitsIffCovers` | `crates/rustydns-core/src/ip_denylist.rs:58-83` | The stored rule of an entry denies exactly the addresses the entry covers, in both families. |
| `IpDenylist.ParseDenylist` | `crates/rustydns-core/src/ip_denylist.rs:41-51` | Parsing fails exactly when some entry is bad; otherwise the list denies a 32- or 128-bit address exactly when some entry covers it. |
| `IpDenylist.ParseEntries` | `crates/rustydns-core/src/ip_denylist.rs:41-175` | The same with the real entry reader, over any parser of address texts. |
| `IpDenylist.MappedAddressFacesBothFamilies` | `crates/rustydns-core/src/ip_denylist.rs:58-83` | Over every parsed list, a mapped address is denied exactly when its IPv4 form is denied or some entry that does not stand for IPv4 addresses covers it as raw bits. |
| `BlockSchedule.VerdictIsPerMinute` | `crates/rustydns-core/src/schedule.rs:161-186` | The verdict on a second is the verdict on its local minute. |
| `BlockSchedule.WindowBlocksIff` | `crates/rustydns-core/src/schedule.rs:161-186` | On local day d, minute t, with d = 4 + k + 7n for weekday k, so that 1970-01-05 is a Monday: a window blocks exactly if k is masked and there are no times, or t is from start up to but not including end, or, when it wraps, before end or from start on. |
| `BlockSchedule.EveryMomentIsLocal` | `crates/rustydns-core/src/schedule.rs:161-186` | Every moment has such a reading. |
| `BlockSchedule.VerdictRepeatsWeekly` | `crates/rustydns-core/src/schedule.rs:161-186` | The verdict repeats every week. |
| `BlockSchedule.OffsetShiftsVerdict` | `crates/rustydns-core/src/schedule.rs:161-186` | Moving the offset by some minutes moves the verdict by exactly as many. |
| `BlockSchedule.WeeklyBlockedMinutes` | `crates/rustydns-core/src/schedule.rs:161-186` | Any 10080 consecutive minutes hold exactly masked days times minutes per masked day blocked ones, wrapping windows and the 24:00 end included. |
| `BlockSchedule.NoWarningIffEveryDay` | `crates/rustydns-core/src/schedule.rs:103-127` | A wrapping window draws no warning exactly when all seven days are masked. |
| `BlockSchedule.NightIsCoveredIffNotWarned` | `crates/rustydns-core/src/schedule.rs:103-127` | The night that starts on a masked day is blocked to its end exactly when that day draws no warning or the night ends at midnight. |
| `BlockSchedule.ParseDays` | `crates/rustydns-core/src/schedule.rs:189-212` | The day list is accepted exactly when every name is a weekday; the mask is exactly the named days, or all of them for the empty list. |
| `BlockSchedule.DayNumberIff` | `crates/rustydns-core/src/schedule.rs:189-212` | A text is read as weekday k exactly when it is the short or long English name of that day, in any letter case and with any white space around it. |
| `BlockSchedule.TimeIsRead` | `crates/rustydns-core/src/schedule.rs:215-231` | Any digits, a colon and any digits are read as that minute of the day, or refused exactly when they are no time of day. |
| `BlockSchedule.SpanIsRead` | `crates/rustydns-core/src/schedule.rs:65-94` | A pair of times in digits is read as those minutes, with 24:00 as an end only, and refused exactly when one is no time of day or both are the same. |
| `BlockSchedule.Compile` | `crates/rustydns-core/src/schedule.rs:60-136` | Compilation succeeds exactly when every window is acceptable; the compiled windows are in order and well formed. |
| `BlockSchedule.CompileSchedule` | `crates/rustydns-core/src/schedule.rs:60-136` | The same with the real readers, and each compiled window blocks, in any 10080 consecutive minutes, its named days times its minutes per day. |
| `BlockSchedule.ConfiguredWindowBlocksIff` | `crates/rustydns-core/src/schedule.rs:60-186` | From the text of a window to its verdict: with its times written in digits it blocks exactly on the listed weekdays, between those times of day, at its offset. |
| `BlockSchedule.WholeDayWindowBlocksIff` | `crates/rustydns-core/src/schedule.rs:60-186` | Without times it blocks the listed weekdays whole. |
| `BlockSchedule.ConservativeIsStricter` | `crates/rustydns-core/src/schedule.rs:138-153` | Conservative evaluation blocks exactly a client with windows, before 2020-01-01 or when some window matches; so never less than the plain one. |
| `UrlRedaction.PartsInvertRender` | `crates/rustydns-core/src/config.rs:1492-1530` | Cutting a rendered URL gives its parts back. |
| `UrlRedaction.RenderInvertsParts` | `crates/rustydns-core/src/config.rs:1492-1530` | The parts of any text with a scheme render to that text. |
| `UrlRedaction.RedactActsOnParts` | `crates/rustydns-core/src/config.rs:1492-1530` | Redacting a rendered URL is rendering its masked parts. |
| `UrlRedaction.RedactIsIdempotent` | `crates/rustydns-core/src/config.rs:1492-1549` | Redacting twice is redacting once, on every string. |
| `UrlRedaction.RedactKeepsIff` | `crates/rustydns-core/src/config.rs:1492-1532` | A text is returned as it is exactly when it has no scheme or carries no user information and no credential other than the mark: nothing else is ever changed. |
| `UrlRedaction.RedactedForm` | `crates/rustydns-core/src/config.rs:1492-1532` | The whole effect on user information and one credential among clean pairs: both become the mark, every other character stays. |
| `UrlRedaction.IsSecretKeyIff` | `crates/rustydns-core/src/config.rs:1443-1466` | A parameter is a credential exactly when it has one of the nineteen names, in any letter case. |
| `UrlRedaction.UserInfoIsInvisible` | `crates/rustydns-core/src/config.rs:1496-1511` | Replacing the user information by any other text leaves the output unchanged. |
| `UrlRedaction.SecretValueIsMasked` | `crates/rustydns-core/src/config.rs:1536-1549` | Among any other parameters, the value of a credential-named pair becomes the mark and the others keep their masked form and order. |
| `UrlRedaction.QuerySecretIsInvisible` | `crates/rustydns-core/src/config.rs:1514-1526` | Replacing the value of a credential-named query pair leaves the output unchanged. |
| `UrlRedaction.FragmentSecretIsInvisible` | `crates/rustydns-core/src/config.rs:1527-1530` | The same for a pair of the fragment. |
| `UrlRedaction.RedactUrlCredentials` | `crates/rustydns-core/src/config.rs:1492-1532` | The appending code computes the reference redaction with the credential names of the source. |
| `ListenerReload.MetricsAddr` | `crates/rustydnsd/src/main.rs:1601-1638` | The metrics address is always loopback, of the same family and port, unchanged if it was loopback and otherwise 127.0.0.1 or ::1. |
| `ListenerReload.LawHoldsAtEveryMoment` | `crates/rustydnsd/src/main.rs:853-1115` | A lawful history has no moment without a DNS listener; none at which a running generation's number was bound again, a generation of any group was retired without a bound replacement, or DoH removed in a reload that did not ask for it; none without metrics after one with; none without DoH after one with unless it was removed. |
| `ListenerReload.GenerationsRunUntilEnded` | `crates/rustydnsd/src/main.rs:853-1115` | In a lawful history a generation keeps serving what it was bound for until it is itself retired or removed. |
| `ListenerReload.SafeInNumbers` | `crates/rustydnsd/src/main.rs:1601-1638` | Everything a reload binds, for whichever transport, has port 0 or one from 1024 on, and metrics are on 127.0.0.0/8 or ::1. |
| `ListenerReload.ActiveListeners.constructor` | `crates/rustydnsd/src/main.rs:796-826` | A new set of listeners serves DNS only and describes it. |
| `ListenerReload.ActiveListeners.InstallDoh` | `crates/rustydnsd/src/main.rs:853-878` | DoH is installed exactly when the address is allowed and binds; the old generation is retired after the new one is bound, and a failure changes nothing. |
| `ListenerReload.ActiveListeners.InstallMetrics` | `crates/rustydnsd/src/main.rs:882-911` | The same for metrics. |
| `ListenerReload.ActiveListeners.ReloadDnsGroup` | `crates/rustydnsd/src/main.rs:922-1040` | DNS is replaced exactly when the settings parse, differ, need no privileged port, and load and bind; otherwise it keeps serving unchanged. |
| `ListenerReload.ActiveListeners.ReloadDohGroup` | `crates/rustydnsd/src/main.rs:1042-1083` | DoH is removed, replaced or kept exactly as the settings and outcomes say. |
| `ListenerReload.ActiveListeners.ReloadMetricsGroup` | `crates/rustydnsd/src/main.rs:1085-1115` | Metrics are replaced exactly when the loopback-forced address or path differs, is unprivileged and binds. |
| `ListenerReload.ActiveListeners.ReloadListeners` | `crates/rustydnsd/src/main.rs:916-920` | The three groups are reloaded independently: what each serves afterwards depends on the settings and its own state only. |
| `ListenerReload.ActiveListeners.RunReloads` | `crates/rustydnsd/src/main.rs:853-1115` | Over every sequence of reloads: one unretired generation per group, described by its live fields; a lawful history of exactly those reloads; and everything bound on the way unprivileged, metrics on loopback. |
| `ListenerOverlap.CompeteIff` | `crates/rustydns-core/src/config.rs:2040-2068` | Two addresses on one port compete exactly when some specific destination is accepted by sockets bound to both, wildcards and IPv4-mapped spellings included. |
| `ListenerOverlap.NoOverlapIff` | `crates/rustydns-core/src/config.rs:2075-2110` | No pair of listeners of different roles overlaps if and only if, for every destination and port, everything that accepts a connection plays one role. |
| `ListenerOverlap.CheckOverlaps` | `crates/rustydns-core/src/config.rs:2093-2110` | The nested loops accept exactly the lists in which no connection is dealt to a random role. |
| `ListenerOverlap.ValidateListeners` | `crates/rustydns-core/src/config.rs:1919-2182` | The listener checks accept exactly the configurations whose addresses all parse, with some plain listener, no ambiguous TCP or UDP connection (metrics at the loopback address it is forced to), no public plaintext DoH, and a certificate for DoT and DoQ. |
| `ObliviousExchange.FetchesAreClearsPlusCached` | `crates/rustydns-resolver/src/odoh.rs:623-643` | Fetches of a target's configuration equal its cache clears plus the one in the cache. |
| `ObliviousExchange.ClearsAreSignalled` | `crates/rustydns-resolver/src/odoh.rs:544-620` | Clears never outnumber stale-key signals, and a signal that was just received is still unspent. |
| `ObliviousExchange.FetchBudget` | `crates/rustydns-resolver/src/odoh.rs:544-643` | Over every run, fetches for a target number at most one plus its stale-key signals. |
| `ObliviousExchange.Transport.ConfigFor` | `crates/rustydns-resolver/src/odoh.rs:623-643` | The cached configuration is used if there is one; otherwise one is fetched and cached. |
| `ObliviousExchange.Transport.Try` | `crates/rustydns-resolver/src/odoh.rs:544-620` | One pass: posted exactly with a configuration and a successful encryption, and repeated exactly after a stale-key signal with a pass left, with the cache then cleared. |
| `ObliviousExchange.Transport.Exchange` | `crates/rustydns-resolver/src/odoh.rs:544-620` | At most two posts, both to one relay; the second exactly after HTTP 400 or a decryption failure and only under a configuration fetched after the clear (RFC 9230). |
| `ObliviousExchange.Transport.RunExchanges` | `crates/rustydns-resolver/src/odoh.rs:544-643` | Any sequence of exchanges keeps the cache discipline and the fetch budget of every target. |

## Left out

- Text is a sequence of characters: files that are not valid UTF-8, and their error paths, are not modelled.
- The Unicode tables behind `to_lowercase` are open: the model knows only the laws of `Casing`, among them the lowercase form of one accented capital, and not which letters outside ASCII have case.
- Parsing of IP address text, UTF-8 encoding of TXT values, the regex set, signature verification and the oblivious cipher are open functions or inputs; DNSSEC validation, HTTP, TLS, QUIC and the foreign resolver library are not part of this model.
- Clocks, fetches, binds, file reads and relay replies are inputs; capability dropping, logging and metrics counters are left out.
- The order of the checks on a static record, which decides which error is named, is not modelled.
- `mesh_record_count`, memory estimates and entry counts are left out as easy members.
- The private and reserved address ranges are an open predicate: they are independent range checks; `outcome_from_parts`, `query_padding` and the random choice of relay and target carry no hard property.
- Configuration checking other than route zones and listeners is left out as single-branch checks.
- Socket activation and adoption of inherited sockets are left out: listener binds are inputs that succeed or fail.
- Error values carry the failing field or kind, not the message text.
- AnswerSanity.Answer.DedupIdentical: compares name, data and lifetime as a triple where the code compares a formatted text of the same three; the 32-bit cast of drop counts is not modelled.
- ConfiguredAuthority.NewAuthority: takes the initial bundle as loaded or absent, since a failed first load is not fatal.
- AnswerSanity.Answer.FilterOutOfBailiwick: does not model the 32-bit cast of the drop count.
- UpstreamAnswers.SanitiseUpstream: takes the resolver library's records as decoded text, so its own rendering of wire names is not modelled.
- BlocklistLoader.Loader.Reload: models sequential rounds and the distinct group names that configuration checking demands; two overlapping reloads are not serialised by the code and are not modelled, nor is lock poisoning.
- BlockSchedule.VerdictIsPerMinute: takes unbounded integers for seconds, so the cast to a signed 64-bit number is not modelled.
- BlockSchedule.ParseDays: the weekday bit mask is the set of its bits.
- IpDenylist.ParseDenylist: 32- and 128-bit words are natural numbers below the power of two, with bitwise AND and shifts written out on them.
- MeshBundle.LoadMeshBundle: does not model reading the verifier key or file metadata; the record count is read as a 64-bit number.
- ListenerReload.ActiveListeners.ReloadMetricsGroup: the metrics path arrives normalised or as refused; draining of a retired generation is its retirement event.
- ObliviousExchange.Transport.Exchange: exchanges are sequential; two exchanges racing on the cache are not modelled.
- Routing.ValidateRouteZones: only the zone checks of a route, not its resolver list.
- ListenerOverlap.ValidateListeners: addresses arrive parsed or as unparseable, and the order of the checks, which decides which error is named, is not modelled.
