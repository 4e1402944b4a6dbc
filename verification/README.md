# Keying, rekeying and encryption migration of the SQLite MC driver

The driver opens SQLite3MultipleCiphers databases through SQLDelight. Opening one is a small protocol: a cipher
configuration becomes a sparse map of pragmas, the map is compiled to an ordered list of SQL statements, the list is
executed on every new connection, and a rekey list may re-encrypt the file on the first one. On the JVM the statements
travel through JDBC packed into one "password"; natively they are executed directly. A factory tries the current
configuration and then its declared migrations. This project models that stack and proves what it is for: contents
survive, the file is only ever under the old or the target encryption, and later connections and later releases of an
application open it.

## Layers

| file | models |
|---|---|
| `Texts`, `Base64`, `LineBreaks`, `Division`, `Wrappers` | UTF-16 texts, the Base64 encoder and decoder of section 4 of RFC 4648, the line-break feed, nullable and throwing results |
| `Transport` | the carrier: packing statements into the JDBC password, and unpacking them in `execute` |
| `Ciphers`, `McPragmas` | configurations of the six ciphers, their presets, and the pragma maps they fill |
| `SqlTokens` | the engine's tokenizer, as far as a key's value needs it |
| `Keys` | passphrases, raw keys (Base16, section 8 of RFC 4648) and the SQL literals they print as |
| `Statements` | `toMCSQLStatements` and the swap of a rekey map into a key map |
| `Engine` | the cipher engine, with every assumption about it and in its own words |
| `StatementTexts` | what is printed, spelled out: pragma maps, statements, and the maps that do not compile |
| `Lossless`, `Protocol`, `Connections` | what the lists do to registers, session and file, interrupted at any statement |
| `JdbcProperties`, `NativeDriver` | the two platforms' connection objects, as classes proved against state functions |
| `Refinement`, `EndToEnd`, `Interleavings` | JVM against native, whole runs of connections, and all interleavings of threads |
| `Factory`, `Migrations`, `Creates` | `createActual`, `attemptUpgrade`, and sequences of creates |
| `Arrivals`, `WireKeys`, `EngineKeys` | keys of any units: what becomes of them on the way to the engine, drivers and factories that are given them |
| `Histories`, `Scenarios` | histories of releases, and the repository's own scenarios for every key |
| `Builders`, `ConfigBuilders`, `MigrationHashes`, `LogRedaction` | the configuration builders, the hash codes of migrations, and the redacting logger |

Classes that the source updates in place are Dafny classes whose methods are proved against functions on values; the
theorems are about those functions. A statement is SQL text throughout, and the engine parses it.

## Assumptions

About the engine, in `Engine.dfy`; `SqlTokens.dfy` follows its tokenizer and parser
(`library/driver/sqlite3mc/sqlite3mc.c:181761-182190`):

- It has names of its own for schemas, pragmas and ciphers; that the driver prints these is proved.
- It has two register files, `main` and `temp`. `cipher` resets everything in its file, `legacy` resets the cipher
  parameters to the defaults of that version, and the defaults are those that the presets document.
- `hmac_check` and `mc_legacy_wal` are not reset by `legacy`, and are not part of how a file is encrypted.
- `key` configures the session from `main`; `rekey` re-encrypts the file from `temp`, all or nothing, needs a readable
  file, and is refused while the journal mode is WAL. The engine also refuses it when the target has a legacy version
  whose page size is not the file's (`sqlite3mc.c:331990-331992`, `332044-332046`). To the model this is an interruption
  before the rekey statement, so results about interrupted connections cover it, and those about undisturbed ones assume
  that page sizes agree.
- A session reads a file exactly when cipher, parameters and secret agree. An empty secret means no encryption. The
  engine ignores some parameters in some settings, such as `kdf_iter` for ChaCha20 with a legacy version
  (`sqlite3mc.c:326072-326075`) or with a raw key; configurations that differ in nothing else open each other's files,
  while the model keeps them apart.
- The value of `key` or `rekey` is the string literal at its beginning. A literal that is not closed, as the SQL text
  ends at a unit 0, or that is followed by something that is no token, is refused before anything happens. White space,
  comments and everything after a semicolon do not count. Any other token makes the statement fail, but only after the
  pragma has taken effect, and nothing is undone.
- No statement after a failed one is executed.

About the rest:

- The JDBC driver first executes `pragma key = '<password>'`, doubling quotes in the password, and a different form when
  a key mode is set. A connection works on its own copy of the properties.
- A new connection succeeds only if it can read the file (`Connections.Connect`); natively the driver checks this
  itself, on the JVM the schema version is read. Where a connection is interrupted, whether the rest of its set-up
  succeeds, which journal mode it leaves and what the registers hold at its start are arbitrary (`Connections.Env`).
- The random key identifier is any 64 hex digits.

## Where code and documentation differ

- Statements are cut to the low byte of each UTF-16 unit and sign-extended back
  (`JDBCMCProperties.kt:159`, `JDBCMC4Connection.kt:101`), so that a passphrase outside 0..0x7F and 0xFF80..0xFFFF is
  another key on the JVM than natively. Some passphrases make the same lists (`Arrivals.PassphrasesCollide` says which).
  A unit with the quote's low byte can end the literal early, and one of low byte 0 ends the statement:
  `Arrivals.PassphraseArrival` tells from the passphrase whether a key arrives and as what, is cut off, or is lost. A
  rekey that is cut off re-encrypts the file with what is left of it although the connection fails
  (`WireKeys.HalfwayFirst`, `WireKeys.RekeyToWord`). `WireKeys` and `EngineKeys` carry the theorems over to all keys.
- `ascon128(other, block)` builds a configuration and discards it (`EncryptionConfig.kt:221-227`);
  see `ConfigBuilders.Ascon128FromIsLost`.
- The hash code of a set of migrations depends on the order of declaration while equality does not
  (`EncryptionMigrationConfig.kt:248-258`); see `MigrationHashes.HashIgnoresOrder`.
- The native driver swaps its maps before the connection is known to work (`PlatformDriver.kt:118-130`), the JVM driver
  after. The end-to-end theorems hold of both; `WireKeys.JvmRefinesNativeOnWire` says exactly when it can be noticed on
  the connection objects. Through `create` it cannot: both platforms clear their maps when the first connection fails.
- A raw key is meant to be used as it is (`Key.kt:67-69`). For SQLCipher the bundled engine extracts its bytes but reports
  no bypass (`sqlite3mc.c:325422-325441`), so that it derives a key from the printed text all the same
  (`sqlite3mc.c:326625-326640`); see `Keys.RawKeyIsExtracted`.

## Model

| member | source | states |
|---|---|---|
| Histories.ReleaseChain | library/driver/src/commonMain/kotlin/io/toxicity/sqlite/mc/driver/config/encryption/EncryptionMigrationConfig.kt:113-117 | For any application, any history of launches of later releases and of creates with right or wrong keys, rekeys and connections failing at any statement, on either platform and with keys of any units: contents are intact, the file is under some release's configuration and a key it was opened with or rekeyed to, or what was left of a rekey that was cut off on the way, and one undisturbed create of the newest release with that key, releases skipped or not, opens it and leaves it under the newest configuration, unless the key is raw and the newest cipher has no raw keys |
| Histories.OneKeyReleaseChain | library/driver/src/commonMain/kotlin/io/toxicity/sqlite/mc/driver/config/encryption/EncryptionMigrationConfig.kt:113-129 | An application that only ever uses one key opens its file under the newest release with that key, whatever failed on the way |
| Histories.StepIsSound | library/driver/src/commonMain/kotlin/io/toxicity/sqlite/mc/driver/SQLiteMCDriver.kt:168-206 | Every launch and every create keeps: contents, a released configuration and a known key that open the file, a rekey that is cut off adding the key that is left of it, and, once the factory has opened it, the current configuration |
| Histories.LaterReleaseOpens | library/driver/src/commonMain/kotlin/io/toxicity/sqlite/mc/driver/SQLiteMCDriver.kt:188-246 | A file under any past release's configuration is brought up to date by one undisturbed create of any later release |
| WireKeys.JvmEndToEndAnyKey | library/driver/src/jvmAndroidMain/kotlin/io/toxicity/sqlite/mc/driver/internal/JDBCMCProperties.kt:61-118 | End to end on the JVM for every configuration, key and rekey, over any run of connections interrupted anywhere: if the keys arrive the run is safe for those that do; if the rekey is cut off no connection succeeds and the file, contents intact, is under its old encryption or under the target with what is left of the rekey, the latter as soon as a connection that opens it is not interrupted; otherwise no connection succeeds or changes the encryption |
| WireKeys.NativeEndToEndAnyKey | library/driver/src/nativeMain/kotlin/io/toxicity/sqlite/mc/driver/PlatformDriver.kt:107-135 | The same for the native driver, whose maps are swapped already when a connection fails after the rekey list: every plan is carried out as it is, unless a key holds the unit 0, when no connection succeeds or changes the encryption |
| WireKeys.WrongKeyOnWire | library/driver/src/commonMain/kotlin/io/toxicity/sqlite/mc/driver/config/MCPragma.kt:194-197 | However often a key that does not arrive, or does not open the file, is tried on the JVM, the file does not change, no connection succeeds and none executes more than a prefix of the key list, so never a rekey statement |
| WireKeys.WrongKeyNatively | library/driver/src/nativeMain/kotlin/io/toxicity/sqlite/mc/driver/PlatformDriver.kt:107-130 | The same for the native driver |
| Scenarios.RekeyScenario | library/driver-test/src/commonTest/kotlin/io/toxicity/sqlite/mc/driver/test/RekeyTest.kt:67-80 | For every configuration and keys: rekeying succeeds, the new key then opens the file with its contents, without migrations, and the old key does if and only if it is the same secret |
| Scenarios.MigrationScenario | library/driver-test/src/commonTest/kotlin/io/toxicity/sqlite/mc/driver/test/RekeyTest.kt:84-192 | The three-release scenario for every non-empty key on either platform: one attempt each, the older releases fail afterwards, a wrong key fails without attempts, contents are intact |
| WireKeys.JvmRefinesNativeOnWire | library/driver/src/jvmAndroidMain/kotlin/io/toxicity/sqlite/mc/driver/internal/JDBCMCProperties.kt:61-118 | For all keys that arrive: whatever happens to one more connection, a JVM driver's run has the files, outcomes and numbers of statements of the native driver given the keys that do, if and only if no connection so far has failed after its whole rekey list; the first connection is always alike, and so is the run after its success. A failed first connection is retried on the connection objects only: through `create` both platforms clear their maps first |
| EndToEnd.RefinementIsExact | library/driver/src/jvmAndroidMain/kotlin/io/toxicity/sqlite/mc/driver/internal/JDBCMCProperties.kt:61-118 | The same for keys whose units survive the carrier, where the statements are the same too |
| Refinement.DriverRuns | library/driver/src/jvmAndroidMain/kotlin/io/toxicity/sqlite/mc/driver/internal/JDBCMCProperties.kt:87-111 | After a successful first connection with the first list, the later list for ever: what the n-th connection executes on each platform, the JVM in carried form |
| Refinement.JvmFirst | library/driver/src/jvmAndroidMain/kotlin/io/toxicity/sqlite/mc/driver/internal/JDBCMCProperties.kt:67-117 | A first connection executes the packed and unpacked first list; on failure the object is unchanged, so that a retry is a first attempt; on success it holds the swapped key map, no rekey map and the cached packing of the later list |
| Refinement.JvmLater | library/driver/src/jvmAndroidMain/kotlin/io/toxicity/sqlite/mc/driver/internal/JDBCMCProperties.kt:65-68 | A ready object connects with the cached later list and never changes again |
| Refinement.NativeFirst | library/driver/src/nativeMain/kotlin/io/toxicity/sqlite/mc/driver/PlatformDriver.kt:107-135 | The native driver executes the first list and is ready after a success |
| Refinement.RekeyAtMostOnce | library/driver/src/jvmAndroidMain/kotlin/io/toxicity/sqlite/mc/driver/internal/JDBCMCProperties.kt:87-100 | In every run of a driver, failed connections included, no connection after a successful one executes a rekey statement, on either platform |
| Refinement.PlanExact | library/driver/src/jvmAndroidMain/kotlin/io/toxicity/sqlite/mc/driver/internal/JDBCMCProperties.kt:159 | A plan's lists survive the carrier if and only if the units of its passphrases do |
| Refinement.AfterClear | library/driver/src/jvmAndroidMain/kotlin/io/toxicity/sqlite/mc/driver/internal/JDBCMCProperties.kt:186-192 | After clearing, an uninitialised JVM object fails, a ready one executes no cipher statement, and a native attempt fails before its first statement |
| Refinement.UncompiledMaps | library/driver/src/jvmAndroidMain/kotlin/io/toxicity/sqlite/mc/driver/internal/JDBCMCProperties.kt:138-151 | Maps that do not compile: the JVM executes nothing, native connections execute the key list when only the rekey map does not; either way the connection fails and the maps stay |
| Refinement.OwnPassword | library/driver/src/jvmAndroidMain/kotlin/io/toxicity/sqlite/mc/driver/internal/JDBCMCProperties.kt:70-111 | An object with a password of its own packs nothing, neither at first nor later; JDBC is given that password and the maps are swapped all the same |
| Refinement.Ephemeral | library/driver/src/jvmAndroidMain/kotlin/io/toxicity/sqlite/mc/driver/internal/JDBCMCProperties.kt:33-68 | An object without a key map connects with what it has and never changes but for its flag |
| Refinement.IdentifierOfBytes | library/driver/src/jvmAndroidMain/kotlin/io/toxicity/sqlite/mc/driver/internal/JDBCMC4Connection.kt:76-80 | The identifier made of 32 random bytes is 64 hex digits |
| Arrivals.ArrivalLiteral | library/driver/src/jvmAndroidMain/kotlin/io/toxicity/sqlite/mc/driver/internal/JDBCMC4Connection.kt:100-102 | What is sent for a key is read by the engine as `ArrivalOf` says, under every cipher that has its kind; the key that arrives, or is left, is whole and on the JVM of surviving units |
| Arrivals.ArrivesExact | library/driver/src/jvmAndroidMain/kotlin/io/toxicity/sqlite/mc/driver/internal/JDBCMCProperties.kt:159 | A key arrives as it is if and only if it has no unit 0 and, on the JVM, its units are in 0..0x7F or 0xFF80..0xFFFF |
| Arrivals.PlainArrival | library/driver/src/commonMain/kotlin/io/toxicity/sqlite/mc/driver/internal/ext/StringExt.kt:37 | A passphrase arrives as its unit-by-unit image if and only if that brings in no quote and no unit 0 |
| Arrivals.PassphrasesCollide | library/driver/src/jvmAndroidMain/kotlin/io/toxicity/sqlite/mc/driver/internal/JDBCMCProperties.kt:159 | Deviation, for all passphrases: two make the same key and rekey lists on the JVM, under every configuration, if and only if they agree in the low bytes of their units once quotes are doubled |
| Arrivals.PlainPassphrasesCollide | library/driver/src/jvmAndroidMain/kotlin/io/toxicity/sqlite/mc/driver/internal/JDBCMCProperties.kt:159 | Where no unit other than the quote has the quote's low byte, that is to agree in length and in each low byte |
| Arrivals.PassphrasesCollideOnce | library/driver/src/jvmAndroidMain/kotlin/io/toxicity/sqlite/mc/driver/internal/JDBCMCProperties.kt:159 | The passphrases 0xE9 and 0x1E9 make the same lists on the JVM and two natively |
| Arrivals.QuotesCollide | library/driver/src/jvmAndroidMain/kotlin/io/toxicity/sqlite/mc/driver/internal/JDBCMCProperties.kt:159 | Two units 0x127 are the passphrase that is one quote, of another length; a single 0x127, of the same length and low byte, is not, and cannot be read |
| Arrivals.PassphraseArrival | library/driver/src/jvmAndroidMain/kotlin/io/toxicity/sqlite/mc/driver/internal/JDBCMC4Connection.kt:100-102 | What becomes of every passphrase on the JVM, told from the passphrase: a literal closes at the first maximal run of quote-like units with an odd number of units other than the quote that does not end the passphrase, or at its end if the last run is even, and never after a unit of low byte 0; what follows it decides whether the key arrives, is cut off or is lost, and its value is the passphrase that prints so |
| Arrivals.WordIsCutOff | library/driver/src/jvmAndroidMain/kotlin/io/toxicity/sqlite/mc/driver/internal/JDBCMC4Connection.kt:118-120 | The Arabic word U+0633 U+0644 U+0627 U+0645 is cut off, and `3D` is left of it (engine: `sqlite3mc.c:180220-180221`) |
| Arrivals.CommentIsEmptyKey | library/driver/src/jvmAndroidMain/kotlin/io/toxicity/sqlite/mc/driver/internal/JDBCMCProperties.kt:159 | The passphrase U+0127 and two hyphens arrives as the empty key (engine: `sqlite3mc.c:182182-182190`) |
| Arrivals.ZeroIsLost | library/driver/src/jvmAndroidMain/kotlin/io/toxicity/sqlite/mc/driver/internal/JDBCMCProperties.kt:159 | A passphrase with a unit of low byte 0 before anything that becomes a quote is lost (engine: `sqlite3mc.c:181882-181908`) |
| Arrivals.IdeographIsLost | library/driver/src/jvmAndroidMain/kotlin/io/toxicity/sqlite/mc/driver/internal/JDBCMCProperties.kt:159 | The ideograph U+4E00 is lost on the JVM and arrives natively (engine: `sqlite3mc.c:181882-181908`) |
| WireKeys.RekeyToWord | library/driver/src/jvmAndroidMain/kotlin/io/toxicity/sqlite/mc/driver/internal/JDBCMC4Connection.kt:118-120 | Rekeying to that word on the JVM fails and leaves the file under the key `3D`, contents intact (engine: `sqlite3mc.c:330920-330935`) |
| WireKeys.RekeyToComment | library/driver/src/jvmAndroidMain/kotlin/io/toxicity/sqlite/mc/driver/internal/JDBCMC4Connection.kt:118-120 | Rekeying to that passphrase on the JVM succeeds and decrypts the file (engine: `sqlite3mc.c:332009-332021`) |
| WireKeys.HalfwayFirst | library/driver/src/jvmAndroidMain/kotlin/io/toxicity/sqlite/mc/driver/internal/JDBCMC4Connection.kt:118-120 | A first connection whose rekey is cut off fails; the file keeps its contents, keeps its encryption if the key does not open it, and otherwise ends under the target with what is left of the rekey unless interrupted before (engine: `sqlite3mc.c:141255-141289`) |
| WireKeys.IdleFirst | library/driver/src/jvmAndroidMain/kotlin/io/toxicity/sqlite/mc/driver/internal/JDBCMC4Connection.kt:118-120 | A first connection with a lost key or rekey, or a key that is cut off, fails and keeps encryption and contents |
| EngineKeys.CreateOnEngine | library/driver/src/commonMain/kotlin/io/toxicity/sqlite/mc/driver/SQLiteMCDriver.kt:168-206 | A create on either platform, by what becomes of its keys: that of the keys that arrive, in result, file, flag and logged attempts; or, with a rekey that is cut off, a failure that may leave the file under what is left of it, and does so when undisturbed and the key opens it; or a failure that re-encrypts nothing |
| Protocol.KeyListWithRun | library/driver/src/commonMain/kotlin/io/toxicity/sqlite/mc/driver/config/MCPragma.kt:207-236 | With any literal, a key list interrupted anywhere never touches the file; it fails at the key statement exactly when the engine does not accept the literal, and run through it leaves the session reading with exactly the configuration and the literal's value |
| Protocol.RekeyListWithRun | library/driver/src/commonMain/kotlin/io/toxicity/sqlite/mc/driver/config/MCPragma.kt:194-240 | With any literal, a rekey list interrupted anywhere leaves the file as it was up to the rekey statement (journal mode aside); that puts it under the target with the literal's value, contents intact, unless the literal is refused, and fails all the same when something follows the literal; run through, the session reads with the target |
| Protocol.WrongCodecStops | library/driver/src/commonMain/kotlin/io/toxicity/sqlite/mc/driver/config/MCPragma.kt:194-197 | A session that cannot read the file executes nothing of a rekey list |
| Protocol.EmptyKeyIsPlain | library/driver/src/commonMain/kotlin/io/toxicity/sqlite/mc/driver/config/encryption/Key.kt:48-53 | The empty key and no other stands for an unencrypted file, under every cipher |
| Protocol.SameCodec | library/driver/src/commonMain/kotlin/io/toxicity/sqlite/mc/driver/SQLiteMCDriver.kt:85-92 | On the model's engine, one configuration and key open what another wrote if and only if both keys are empty, or neither is, the cipher configurations are equal and the secrets are |
| Connections.ConnectKeyed | library/driver/src/nativeMain/kotlin/io/toxicity/sqlite/mc/driver/PlatformDriver.kt:107-110 | A connection without rekey keeps the encryption and succeeds if and only if it is undisturbed and configuration and key are the file's |
| Connections.ConnectRekeyed | library/driver/src/nativeMain/kotlin/io/toxicity/sqlite/mc/driver/PlatformDriver.kt:107-130 | A connection with rekey: a wrong key changes nothing and never gets to the rekey list; the right one leaves the old or the target encryption, and success means the target |
| Connections.ConnectRekeyedWith | library/driver/src/jvmAndroidMain/kotlin/io/toxicity/sqlite/mc/driver/internal/JDBCMC4Connection.kt:118-120 | The same with any rekey literal: one that something follows re-encrypts without success, a refused one changes nothing |
| Connections.ConnectUnaccepted | library/driver/src/jvmAndroidMain/kotlin/io/toxicity/sqlite/mc/driver/internal/JDBCMC4Connection.kt:118-120 | A key literal that the engine does not accept: nothing happens, whatever comes after it |
| Connections.Database.Open | library/driver/src/jvmAndroidMain/kotlin/io/toxicity/sqlite/mc/driver/internal/JDBCMC4Connection.kt:118-120 | Executing statement by statement until one fails is the specified run |
| JdbcProperties.PutSwapped | library/driver/src/jvmAndroidMain/kotlin/io/toxicity/sqlite/mc/driver/internal/JDBCMCProperties.kt:90-96 | Moving the entries one by one, in any order, gives the swapped map |
| Statements.ToMcSqlStatements | library/driver/src/commonMain/kotlin/io/toxicity/sqlite/mc/driver/config/MCPragma.kt:175-241 | The compiling loop returns the specified list, and throws exactly for the maps that do not compile |
| StatementTexts.CompiledTexts | library/driver/src/commonMain/kotlin/io/toxicity/sqlite/mc/driver/config/MCPragma.kt:191-240 | Every list of every map as texts, names and order spelled out: parameters in `main` and then the key; for a rekey the two fixed statements, parameters in `temp`, the rekey, and parameters in `main` and the key once more |
| StatementTexts.CompilesExactly | library/driver/src/commonMain/kotlin/io/toxicity/sqlite/mc/driver/config/MCPragma.kt:177-224 | Exactly which maps compile: one of six names of ciphers in any case, a legacy version, a key or a rekey, and nothing else but texts of 32-bit integers; any other is an illegal argument |
| Texts.ToIntOrNullExact | library/driver/src/commonMain/kotlin/io/toxicity/sqlite/mc/driver/config/MCPragma.kt:223 | A text is read as a 32-bit integer if and only if it is a sign perhaps, zeros perhaps, and the digits of that integer |
| Texts.DigitsArePositional | library/driver/src/commonMain/kotlin/io/toxicity/sqlite/mc/driver/config/MCPragma.kt:151 | A number is printed digit by digit of its decimal expansion |
| Texts.DigitsAreFew | library/driver/src/commonMain/kotlin/io/toxicity/sqlite/mc/driver/config/MCPragma.kt:151 | And without a zero in front |
| Statements.RekeyStatements | library/driver/src/commonMain/kotlin/io/toxicity/sqlite/mc/driver/config/MCPragma.kt:191-240 | The shape of a rekey list, and suffix equality: what follows the rekey statement is the key list of the swapped map, element for element |
| Statements.KeyStatements | library/driver/src/commonMain/kotlin/io/toxicity/sqlite/mc/driver/config/MCPragma.kt:207-236 | The shape of a key list: main parameters in order, then the key |
| Statements.SwappedIsFresh | library/driver/src/jvmAndroidMain/kotlin/io/toxicity/sqlite/mc/driver/internal/JDBCMCProperties.kt:87-100 | Swapping the map built to rekey gives the map built to open with the same key |
| Statements.SwappedCompiles | library/driver/src/jvmAndroidMain/kotlin/io/toxicity/sqlite/mc/driver/internal/JDBCMCProperties.kt:102-111 | Repacking after the swap cannot fail once the rekey map has compiled |
| Statements.KeyedPragmasCompile | library/driver/src/commonMain/kotlin/io/toxicity/sqlite/mc/driver/config/MCPragma.kt:177-183 | Every map the factory builds compiles; building one fails only for a raw key and a cipher without raw keys |
| Lossless.LosslessEncoding | library/driver/src/commonTest/kotlin/io/toxicity/sqlite/mc/driver/config/encryption/MCCipherConfigUnitTest.kt:131-138 | From any registers, the parameter statements of a valid configuration, sparse or with addAll, all succeed and leave exactly its parameters, in their register file only |
| Lossless.PragmasInjective | library/driver/src/commonMain/kotlin/io/toxicity/sqlite/mc/driver/config/encryption/MCCipherConfig.kt:41-134 | Equal pragma maps come from equal configurations, even between sparse and addAll |
| Lossless.ViewInjective | library/driver/src/commonMain/kotlin/io/toxicity/sqlite/mc/driver/config/encryption/MCCipherConfig.kt:136-180 | Two valid configurations leave the same registers if and only if they are equal |
| StatementTexts.AllParameterTexts | library/driver/src/commonMain/kotlin/io/toxicity/sqlite/mc/driver/config/encryption/MCCipherConfig.kt:41-134 | With addAll, the map of every configuration as texts: the name of its cipher, each parameter under its own name, booleans and enum members as their numbers, nullable ones only if set |
| StatementTexts.SparseIsMinimal | library/driver/src/commonMain/kotlin/io/toxicity/sqlite/mc/driver/config/encryption/MCCipherConfig.kt:54-134 | Without addAll the map is as small as it can be: beside cipher and legacy it has exactly the parameters that the engine, told these two, would not hold by itself, with the same texts |
| StatementTexts.StandardIsShort | library/driver/src/commonTest/kotlin/io/toxicity/sqlite/mc/driver/config/encryption/MCCipherConfigUnitTest.kt:28-68 | Cipher and legacy are all that is written for exactly thirteen settings, the documented ones of every cipher and legacy version, written out in numbers |
| StatementTexts.FactoryMapIsShort | library/driver/src/commonMain/kotlin/io/toxicity/sqlite/mc/driver/SQLiteMCDriver.kt:172-183 | So for the maps that the factory builds, with the key or the rekey as third entry |
| Engine.ParseAssignment | library/driver/src/commonMain/kotlin/io/toxicity/sqlite/mc/driver/config/MCPragma.kt:214-233 | Every assignment the compiler prints is read back as its target and value |
| Engine.PrintedName | library/driver/src/commonMain/kotlin/io/toxicity/sqlite/mc/driver/config/MCPragma.kt:207-231 | The driver prints schema and name of a parameter as the engine spells them |
| Engine.CipherOfName | library/driver/src/commonMain/kotlin/io/toxicity/sqlite/mc/driver/config/encryption/Cipher.kt:30-35 | The driver has the names of the six ciphers that the engine has |
| Transport.CarrierRoundTrip | library/driver/src/jvmAndroidMain/kotlin/io/toxicity/sqlite/mc/driver/internal/JDBCMCProperties.kt:153-175 | Packing, JDBC's formatting and the interception give back every list of statements in order, each carried through its bytes, wherever line breaks fall; only blank statements are lost |
| Transport.AnyCarrier | library/driver/src/jvmAndroidMain/kotlin/io/toxicity/sqlite/mc/driver/internal/JDBCMC4Connection.kt:83-122 | The same for any spelling of `pragma key =` in upper and lower case and any text around the password |
| Transport.PassedOn | library/driver/src/jvmAndroidMain/kotlin/io/toxicity/sqlite/mc/driver/internal/JDBCMC4Connection.kt:83-91 | A statement that does not start with `pragma key =`, case aside, or does not bear the identifier after its first quote, is passed on as it stands, once |
| Transport.MalformedIsRejected | library/driver/src/jvmAndroidMain/kotlin/io/toxicity/sqlite/mc/driver/internal/JDBCMC4Connection.kt:93-107 | With the identifier, nothing is passed on and an SQL error thrown if and only if some part between dots is neither blank nor Base64 |
| Transport.BlankWhenCarried | library/driver/src/jvmAndroidMain/kotlin/io/toxicity/sqlite/mc/driver/internal/JDBCMC4Connection.kt:109-114 | A statement is lost on the way if and only if the low bytes of all its units are white space of ASCII |
| Transport.PackedText | library/driver/src/jvmAndroidMain/kotlin/io/toxicity/sqlite/mc/driver/internal/JDBCMCProperties.kt:153-168 | The password is the identifier and a dot after each encoded statement, in lines of 64 |
| Transport.CarriedExact | library/driver/src/jvmAndroidMain/kotlin/io/toxicity/sqlite/mc/driver/internal/JDBCMCProperties.kt:159 | A text survives the bytes if and only if each unit is in 0..0x7F or 0xFF80..0xFFFF |
| Transport.IdentifierFraming | library/driver/src/jvmAndroidMain/kotlin/io/toxicity/sqlite/mc/driver/internal/JDBCMC4Connection.kt:84-91 | A packed password is recognised if and only if the identifier fits on a line of 64; a longer one reaches SQLite unchanged, once |
| Transport.PackStatements | library/driver/src/jvmAndroidMain/kotlin/io/toxicity/sqlite/mc/driver/internal/JDBCMCProperties.kt:153-175 | The streaming packer produces the specified password |
| Transport.EncoderFeed.Consume | library/driver/src/jvmAndroidMain/kotlin/io/toxicity/sqlite/mc/driver/internal/JDBCMCProperties.kt:159 | The streaming encoder at any time has put out the encoding of its whole blocks |
| Transport.EncoderFeed.Flush | library/driver/src/jvmAndroidMain/kotlin/io/toxicity/sqlite/mc/driver/internal/JDBCMCProperties.kt:160 | Flushing completes the encoding of everything consumed and starts afresh |
| Transport.EncoderFeed.PackAll | library/driver/src/jvmAndroidMain/kotlin/io/toxicity/sqlite/mc/driver/internal/JDBCMCProperties.kt:158-168 | The statement loop appends each statement's encoding and its dot |
| Base64.DecodeEncode | library/driver/src/jvmAndroidMain/kotlin/io/toxicity/sqlite/mc/driver/internal/JDBCMC4Connection.kt:100-104 | Decoding undoes encoding with line breaks inserted anywhere |
| Base64.EncodedGroup | library/driver/src/jvmAndroidMain/kotlin/io/toxicity/sqlite/mc/driver/internal/JDBCMCProperties.kt:157-160 | Each group of up to three bytes is written as the letters of its four sextets in the alphabet of RFC 4648, padded in place of those it has no bits for |
| Base64.DecodesExactly | library/driver/src/jvmAndroidMain/kotlin/io/toxicity/sqlite/mc/driver/internal/JDBCMC4Connection.kt:100-107 | A text decodes if and only if, white space aside, it is letters of the alphabet, not one of them left over, and then padding only |
| LineBreaks.LineBreakFeed.Output | library/driver/src/jvmAndroidMain/kotlin/io/toxicity/sqlite/mc/driver/internal/JDBCMCProperties.kt:154-155 | The feed breaks the line before every unit that would exceed the interval |
| LineBreaks.UnwrapWrapped | library/driver/src/jvmAndroidMain/kotlin/io/toxicity/sqlite/mc/driver/internal/JDBCMCProperties.kt:154 | Dropping the line breaks gives back what was fed |
| LineBreaks.WrappedLines | library/driver/src/jvmAndroidMain/kotlin/io/toxicity/sqlite/mc/driver/internal/JDBCMCProperties.kt:154 | Every line but the last has the interval's length, and line breaks stand between lines only |
| LineBreaks.WrappedFirstLine | library/driver/src/jvmAndroidMain/kotlin/io/toxicity/sqlite/mc/driver/internal/JDBCMC4Connection.kt:73-74 | The first line comes out in one piece, and a longer feed is broken right after it |
| Keys.Raw | library/driver/src/commonMain/kotlin/io/toxicity/sqlite/mc/driver/config/encryption/Key.kt:92-130 | The byte loops give the hex key on one line, zero the caller's key when asked for and never the salt, and reject wrong sizes without touching anything |
| Keys.RawKeyDecodes | library/driver/src/commonMain/kotlin/io/toxicity/sqlite/mc/driver/config/encryption/Key.kt:92-130 | A raw key is 64 or 96 hex digits on one line that decode to key and then salt |
| Keys.HexDigits | library/driver/src/commonMain/kotlin/io/toxicity/sqlite/mc/driver/config/encryption/Key.kt:110-117 | Each byte is its two digits in the alphabet of Base16, the higher one first |
| Keys.RawKeyIsExtracted | library/driver/src/commonMain/kotlin/io/toxicity/sqlite/mc/driver/config/encryption/Key.kt:138-151 | Printing a raw key succeeds for SQLCipher and ChaCha20 only, and from the literal the engine extracts exactly the caller's bytes; under ChaCha20 alone it then derives nothing (engine: `sqlite3mc.c:325371-325443`) |
| Keys.FormattedDenotesSecret | library/driver/src/commonMain/kotlin/io/toxicity/sqlite/mc/driver/config/encryption/Key.kt:135-153 | Printing fails exactly for a raw key and a cipher without raw keys; otherwise SQL reads the literal to its end and gets the secret, whatever quotes the passphrase holds, unless it holds a unit 0, and then nothing is read |
| Keys.SameSecret | library/driver/src/commonMain/kotlin/io/toxicity/sqlite/mc/driver/config/encryption/Key.kt:137-145 | Two keys are one secret if and only if they are equal or one spells the other's raw notation |
| SqlTokens.LexedIsPrinted | library/driver/src/commonMain/kotlin/io/toxicity/sqlite/mc/driver/config/encryption/Key.kt:135-137 | A string literal is read up to its first quote that is not doubled, and its value is the one that is written so; none is read past a unit 0 (engine: `sqlite3mc.c:181882-181908`) |
| SqlTokens.PrintedIsRead | library/driver/src/commonMain/kotlin/io/toxicity/sqlite/mc/driver/config/encryption/Key.kt:135-137 | A printed literal with nothing after it is accepted with its value, or refused if that holds the unit 0 (engine: `sqlite3mc.c:181882-181908`) |
| McPragmas.ApplyCipherPragmas | library/driver/src/commonMain/kotlin/io/toxicity/sqlite/mc/driver/config/encryption/MCCipherConfig.kt:41-134 | The puts of all six ciphers add exactly cipher, legacy and what differs from the preset of the legacy version (or everything, with addAll) |
| McPragmas.ApplyEncryptionPragmas | library/driver/src/commonMain/kotlin/io/toxicity/sqlite/mc/driver/config/encryption/EncryptionConfig.kt:370-381 | A map that names a cipher keeps its parameters; the two global pragmas are added when they differ from their defaults |
| McPragmas.ApplyKeyPragma | library/driver/src/commonMain/kotlin/io/toxicity/sqlite/mc/driver/config/encryption/EncryptionConfig.kt:385-392 | Puts the printed key under KEY or RE_KEY, or throws and leaves the map |
| McPragmas.NewKeyedPragmas | library/driver/src/commonMain/kotlin/io/toxicity/sqlite/mc/driver/SQLiteMCDriver.kt:172-183 | The map of a configuration and key, or the key's error |
| JdbcProperties.JdbcMcProperties.constructor | library/driver/src/jvmAndroidMain/kotlin/io/toxicity/sqlite/mc/driver/internal/JDBCMCProperties.kt:27-50 | Initialised at once only without a key map; the four requirements on the maps are its preconditions |
| JdbcProperties.JdbcMcProperties.Pack | library/driver/src/jvmAndroidMain/kotlin/io/toxicity/sqlite/mc/driver/internal/JDBCMCProperties.kt:138-184 | Fails with an SQL error when a map does not compile; otherwise sets the password and removes the key mode |
| JdbcProperties.JdbcMcProperties.SwapIn | library/driver/src/jvmAndroidMain/kotlin/io/toxicity/sqlite/mc/driver/internal/JDBCMCProperties.kt:87-100 | In place: the key map becomes the swapped rekey map, the rekey map is emptied and dropped |
| JdbcProperties.JdbcMcProperties.WithKeyPropsTo | library/driver/src/jvmAndroidMain/kotlin/io/toxicity/sqlite/mc/driver/internal/JDBCMCProperties.kt:61-118 | One call refines the state machine that the refinement and end-to-end theorems are about |
| JdbcProperties.JdbcMcProperties.Clear | library/driver/src/jvmAndroidMain/kotlin/io/toxicity/sqlite/mc/driver/internal/JDBCMCProperties.kt:186-192 | Empties both maps and the entries, and keeps the flag |
| NativeDriver.NativeConnections.OnCreateConnection | library/driver/src/nativeMain/kotlin/io/toxicity/sqlite/mc/driver/PlatformDriver.kt:107-135 | Key list, rekey list, swap, check: the specified native connection, swapped as soon as the rekey list is through |
| NativeDriver.NativeConnections.Close | library/driver/src/nativeMain/kotlin/io/toxicity/sqlite/mc/driver/PlatformDriver.kt:76-79 | Empties the key map only |
| NativeDriver.NativeConnections.Clear | library/driver/src/nativeMain/kotlin/io/toxicity/sqlite/mc/driver/PlatformDriver.kt:146-151 | Empties both maps after a failed first connection |
| Interleavings.EveryInterleaving | library/driver/src/jvmAndroidMain/kotlin/io/toxicity/sqlite/mc/driver/internal/JDBCMCProperties.kt:61-118 | Under every interleaving of any number of calls: initialised and not cleared means no rekey map and a password that packs the current key map; not initialised and idle means as created; at most one successful rekey list |
| Interleavings.EveryConnection | library/driver/src/jvmAndroidMain/kotlin/io/toxicity/sqlite/mc/driver/internal/JDBCMCProperties.kt:65-68 | Under every interleaving a connection executes the first list while initialising, the later list when ready, or nothing, and nothing once cleared |
| Interleavings.EveryFile | library/driver/src/jvmAndroidMain/kotlin/io/toxicity/sqlite/mc/driver/internal/JDBCMCProperties.kt:61-118 | After every step of every interleaving the file holds its contents. If the keys arrive it is under the old or the target encryption, under the target once a first connection has succeeded, and until a clear every connection of a ready object opens it unless disturbed; if the rekey is cut off no connection succeeds and the encryption is the old one or the target with what is left of it; otherwise none succeeds and the encryption stays |
| Interleavings.StepKeepsFile | library/driver/src/jvmAndroidMain/kotlin/io/toxicity/sqlite/mc/driver/internal/JDBCMCProperties.kt:77-81 | Each step of a thread, connecting ones included, keeps the file safe |
| Interleavings.StepKeepsInv | library/driver/src/jvmAndroidMain/kotlin/io/toxicity/sqlite/mc/driver/internal/JDBCMCProperties.kt:65-117 | Each step of a thread keeps lock ownership and the object invariant |
| Interleavings.SequentialCall | library/driver/src/jvmAndroidMain/kotlin/io/toxicity/sqlite/mc/driver/internal/JDBCMCProperties.kt:67-117 | Steps that nothing interleaves with give the state and the file of the method |
| Interleavings.ReadyCall | library/driver/src/jvmAndroidMain/kotlin/io/toxicity/sqlite/mc/driver/internal/JDBCMCProperties.kt:65-68 | So for a call on a ready object, found so at once or behind the lock |
| Interleavings.ClearCall | library/driver/src/jvmAndroidMain/kotlin/io/toxicity/sqlite/mc/driver/internal/JDBCMCProperties.kt:186-192 | And for a clear, which leaves what the method leaves |
| Interleavings.NoDeadlock | library/driver/src/jvmAndroidMain/kotlin/io/toxicity/sqlite/mc/driver/internal/JDBCMCProperties.kt:61-118 | After any steps, every thread inside can take a step that brings it nearer to leaving, or waits for the lock, and then the thread holding it can |
| Factory.DriverFactory.CreateActual | library/driver/src/commonMain/kotlin/io/toxicity/sqlite/mc/driver/SQLiteMCDriver.kt:168-206 | One create: the specified result, file, flag and log |
| Factory.DriverFactory.AttemptUpgrade | library/driver/src/commonMain/kotlin/io/toxicity/sqlite/mc/driver/SQLiteMCDriver.kt:209-246 | The downward loop over the migrations is the specified one, with its numbered log |
| Factory.MakeAttempt | library/driver/src/commonMain/kotlin/io/toxicity/sqlite/mc/driver/SQLiteMCDriver.kt:221-233 | Building both maps and connecting; a building error leaves the file alone |
| Factory.PlatformCreate | library/driver/src/jvmAndroidMain/kotlin/io/toxicity/sqlite/mc/driver/PlatformDriver.kt:117-140 | The first connection of a new driver; both maps are empty after a failure |
| Factory.KeyedHasKey | library/driver/src/jvmAndroidMain/kotlin/io/toxicity/sqlite/mc/driver/internal/JDBCMCProperties.kt:37-50 | Every map the factory builds meets the four requirements of the properties object |
| EngineKeys.EveryUpgrade | library/driver/src/commonMain/kotlin/io/toxicity/sqlite/mc/driver/SQLiteMCDriver.kt:209-246 | For every key on either platform: under any faults the migration loop keeps the contents, leaves the old or the target encryption, the target on success, and a key that opens nothing changes nothing; undisturbed it succeeds if and only if a declared migration opens the file, after n - j attempts for the last such position j, numbered downwards from n. If the target key is cut off it fails, and undisturbed the file ends under what is left of it if and only if a migration opens it; if a key is lost or the target does not suit, it fails and re-encrypts nothing |
| EngineKeys.EveryUpgradeIgnoresOrder | library/driver/src/commonMain/kotlin/io/toxicity/sqlite/mc/driver/SQLiteMCDriver.kt:209-246 | For every key, outcome and final encryption do not depend on the order of declaration |
| EngineKeys.EveryCreate | library/driver/src/commonMain/kotlin/io/toxicity/sqlite/mc/driver/SQLiteMCDriver.kt:168-206 | One create, for every key on either platform: safe under any faults; undisturbed, exactly when it succeeds, which exception it throws otherwise, and how many migrations it tries; with a rekey that is cut off or a lost key, as `CreateOnEngine` says |
| Creates.TargetPragmasBuild | library/driver/src/commonMain/kotlin/io/toxicity/sqlite/mc/driver/SQLiteMCDriver.kt:227-231 | Building the target map of a migration cannot throw once the first attempt got as far as opening |
| Creates.FactoryRun | library/driver/src/commonMain/kotlin/io/toxicity/sqlite/mc/driver/SQLiteMCDriver.kt:63-64 | Over any calls on one factory the flag is up exactly after the first success; from then on no migration is attempted and a failing call throws its first attempt's error, and until then, with migrations declared, it throws that all of them failed |
| Builders.PageSizeCheckIsExact | library/driver/src/commonMain/kotlin/io/toxicity/sqlite/mc/driver/config/encryption/MCCipherConfig.kt:328-336 | The remainder test accepts exactly 0 and the powers of two from 512 to 65536 |
| Builders.DivisorOfPow2 | library/driver/src/commonMain/kotlin/io/toxicity/sqlite/mc/driver/config/encryption/MCCipherConfig.kt:333-335 | Only powers of two divide a power of two |
| Builders.BuilderInvariant | library/driver/src/commonMain/kotlin/io/toxicity/sqlite/mc/driver/config/encryption/MCSqlCipherConfig.kt:154-470 | After any sequence of preset and setter calls, throwing ones included, build returns a configuration in range with the null pattern of its legacy version |
| Builders.RebuildIsIdentity | library/driver/src/commonMain/kotlin/io/toxicity/sqlite/mc/driver/config/encryption/MCSqlCipherConfig.kt:349-362 | Copying and rebuilding is the identity on exactly the valid configurations |
| Builders.EveryValidConfigIsBuilt | library/driver/src/commonMain/kotlin/io/toxicity/sqlite/mc/driver/config/encryption/MCSqlCipherConfig.kt:171-347 | Every valid configuration is reached by setter calls from any builder |
| Builders.SqlCipherBuilder.Call | library/driver/src/commonMain/kotlin/io/toxicity/sqlite/mc/driver/config/encryption/MCSqlCipherConfig.kt:171-452 | One setter or preset: it throws exactly when out of range, and then changes nothing; what presets and setters lead to say `PresetsBuild` and `EveryValidConfigIsBuilt` |
| Builders.SqlCipherBuilder.Build | library/driver/src/commonMain/kotlin/io/toxicity/sqlite/mc/driver/config/encryption/MCSqlCipherConfig.kt:455-470 | What is built is valid |
| Builders.PresetsBuild | library/driver/src/commonMain/kotlin/io/toxicity/sqlite/mc/driver/config/encryption/MCSqlCipherConfig.kt:369-452 | Whatever was set before, each of the five presets builds its documented settings, written out in numbers, and these are those of its legacy version |
| Builders.NullsFallBack | library/driver/src/commonMain/kotlin/io/toxicity/sqlite/mc/driver/config/encryption/MCSqlCipherConfig.kt:455-470 | A nullable field left null is built as the legacy version has it, and one that the legacy version does not have is built as null |
| ConfigBuilders.ChaCha20Builder.LegacyPageSize | library/driver/src/commonMain/kotlin/io/toxicity/sqlite/mc/driver/config/encryption/MCChaCha20Config.kt:132-136 | Accepts exactly the page sizes, and keeps the builder valid |
| ConfigBuilders.ChaCha20Builder.Legacy | library/driver/src/commonMain/kotlin/io/toxicity/sqlite/mc/driver/config/encryption/MCChaCha20Config.kt:109-113 | Accepts 0 and 1 and keeps the other fields |
| ConfigBuilders.ChaCha20Builder.KdfIter | library/driver/src/commonMain/kotlin/io/toxicity/sqlite/mc/driver/config/encryption/MCChaCha20Config.kt:153-157 | Accepts positive counts and keeps the other fields |
| ConfigBuilders.ChaCha20Builder.Preset | library/driver/src/commonMain/kotlin/io/toxicity/sqlite/mc/driver/config/encryption/MCChaCha20Config.kt:172-187 | The two presets, whatever was set before |
| ConfigBuilders.Ascon128FromIsLost | library/driver/src/commonMain/kotlin/io/toxicity/sqlite/mc/driver/config/encryption/EncryptionConfig.kt:221-227 | Deviation: wherever it stands among the calls, `ascon128(other, block)` might as well not be there; what is built is what storing its configuration would have built if and only if the builder already held that one or a later call stores another |
| ConfigBuilders.Ascon128FromAlone | library/driver/src/commonMain/kotlin/io/toxicity/sqlite/mc/driver/config/encryption/EncryptionConfig.kt:319-326 | A new builder has nothing to build after it |
| ConfigBuilders.BuildsLastUsed | library/driver/src/commonMain/kotlin/io/toxicity/sqlite/mc/driver/config/encryption/EncryptionConfig.kt:211-326 | What is built holds what the last storing call stored, and is nothing exactly when no call stored anything |
| ConfigBuilders.BuildsLastSettings | library/driver/src/commonMain/kotlin/io/toxicity/sqlite/mc/driver/config/encryption/EncryptionConfig.kt:173-326 | After any calls, from any builder: the cipher configuration, hmacCheck and mcLegacyWAL that are built are each the argument of the last call of its own kind, or what the builder held; without a cipher configuration nothing is built |
| ConfigBuilders.EncryptionConfigBuilder.Call | library/driver/src/commonMain/kotlin/io/toxicity/sqlite/mc/driver/config/encryption/EncryptionConfig.kt:185-317 | Each call changes the builder as `BuildsLastSettings` supposes |
| ConfigBuilders.DeclaredKeepsOrder | library/driver/src/commonMain/kotlin/io/toxicity/sqlite/mc/driver/config/encryption/EncryptionMigrationConfig.kt:191-231 | Declared migrations are in the order of their first occurrence |
| ConfigBuilders.DistinctIsDeclared | library/driver/src/commonMain/kotlin/io/toxicity/sqlite/mc/driver/config/encryption/EncryptionMigrationConfig.kt:234-238 | Copying another configuration's migrations declares them as they stand |
| ConfigBuilders.MigrationConfigBuilder.MigrationFrom | library/driver/src/commonMain/kotlin/io/toxicity/sqlite/mc/driver/config/encryption/EncryptionMigrationConfig.kt:212-231 | Adds a migration unless an equal one is there; a block without cipher adds nothing |
| ConfigBuilders.MigrationConfigBuilder.Build | library/driver/src/commonMain/kotlin/io/toxicity/sqlite/mc/driver/config/encryption/EncryptionMigrationConfig.kt:240-245 | Null exactly when nothing was declared |
| MigrationHashes.HashIgnoresOrder | library/driver/src/commonMain/kotlin/io/toxicity/sqlite/mc/driver/config/encryption/EncryptionMigrationConfig.kt:248-258 | Deviation: a set of migrations, of any size, has one hash code for all orders of declaration, between which equality does not tell, if and only if its members' codes are congruent modulo 2^31 |
| MigrationHashes.OrdersHashApart | library/driver/src/commonMain/kotlin/io/toxicity/sqlite/mc/driver/config/encryption/MCCipherConfig.kt:182-224 | Two such migrations, the ChaCha20 presets: their two orders have different hash codes on every platform |
| MigrationHashes.CipherHash | library/driver/src/commonMain/kotlin/io/toxicity/sqlite/mc/driver/config/encryption/MCCipherConfig.kt:182-224 | The hash code of every valid cipher configuration as a polynomial in 31 of its fields, null counting as 0 and the cipher not at all |
| MigrationHashes.MigrationCode | library/driver/src/commonMain/kotlin/io/toxicity/sqlite/mc/driver/config/encryption/EncryptionConfig.kt:336-342 | The hash code of a migration from its two flags and that of its cipher configuration |
| LogRedaction.RedactionIndependence | library/driver/src/commonMain/kotlin/io/toxicity/sqlite/mc/driver/config/FactoryConfig.kt:239-251 | Key logs that agree up to the first equals sign are written alike |
| LogRedaction.RedactsExactly | library/driver/src/commonMain/kotlin/io/toxicity/sqlite/mc/driver/config/FactoryConfig.kt:239-251 | For every log: it is written as it stands when redaction is off, when it does not start with `EXECUTE\n PRAGMA`, or when it holds neither `rekey =` nor `key =`, case aside; otherwise its text up to the first equals sign is, and the mark |
| LogRedaction.KeyStatementsAreRedacted | library/driver/src/commonMain/kotlin/io/toxicity/sqlite/mc/driver/config/FactoryConfig.kt:240-248 | The log of a key or rekey statement is the same for every key |
| LogRedaction.KeyLogHasEquals | library/driver/src/commonMain/kotlin/io/toxicity/sqlite/mc/driver/config/FactoryConfig.kt:243-248 | A key log holds an equals sign, so that something is always cut |

## Left out

- The real engine, cryptography, JDBC, SQLiter, SQLDelight and JNI: replaced by the assumptions above.
- Creating a new database file, schema creation and schema migration: every history starts with an existing file.
- Ephemeral databases: they have no key protocol; `JdbcProperties` has the branch without a key map (`Refinement.Ephemeral`).
- Directories, driver registration and the delegating methods of the platform drivers: input, output and thin wrappers.
- The other pragmas of a connection: only the journal mode they may leave is kept, as `Env.wal`.
- Coroutines: one factory's creates happen one after the other, as its dispatcher has them (`FactoryConfig.kt:222-229`).
- Reading settings back from a database, and `toString`. Hash codes of booleans and enum members are the platform's own.
- The builders of RC4, Ascon128, WxAES128 and WxAES256: their configurations are covered, their setters would repeat those of ChaCha20.
- Scrubbing of string builders: not observable here. The zeroing of a raw key's bytes is modelled.
- Exceptions thrown by the logger, and the trimming of migration notes.
- `Texts.ToIntOrNull`: recognises ASCII digits only, as only these are ever printed.
- Case folding knows which units fold to ASCII letters and no others, as only ASCII texts are compared with.
- EngineKeys.EveryUpgrade: its exact half assumes that no connection of the loop is disturbed, as only then does its success depend on the keys alone; the other half covers all faults.
- EngineKeys.EveryCreate: the same.
- Interleavings.EveryFile: a JVM thread's connection is one step of the machine, as it only reads the properties it was handed; connections of other threads do not interleave with its statements.
- Histories.LaterReleaseOpens: like all results about undisturbed connections, does not model the engine's refusal to change a file's page size by a rekey, as page sizes of files are not part of the model.
- Lone surrogates in a native passphrase, which the conversion to UTF-8 replaces.
