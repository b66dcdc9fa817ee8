# Verification of mhda

`mhda` gives every HD wallet address one canonical text, a URN such as
`urn:mhda:nt:evm:ci:1:dt:bip44:dp:m/44'/60'/0'/0/0`. This project models the library's four
connected parts and proves what its specification promises of them, for all inputs and all runs:

* the **derivation path**, whose shape is written down in the source five times (validators, field
  extraction, shortcut population, level rebuild, printing template); all five are proved to agree with one
  function, `Paths.PathOf`, and one grammar, `PathShapes.InLanguage`;
* the **URN parser, the printer and the mutable address**: round trip, order independence, injectivity of
  the identity, and failures that leave no trace, over every run of constructors, setters and accessor edits;
* **strict validation** over the compatibility matrix: one key has one spelling;
* **bounded arithmetic and the hashes**: exact overflow detection, and SHA-1 and SHA-256 against FIPS 180-4.

## How it is built

Every mutable object of the source (`chain`, `derivation_path`, `address`) is a class with the same fields,
and every loop or buffer of the source is a method with a loop. Each method is proved against a function on
values (`Chains`, `Paths`, `Addresses`, `NssPairs`, `Levels`, `Text`, `Numbers`, `Quoting`, `Sha`, `Sha1`,
`Sha256`), and what the source promises is proved about those functions. `View()` takes an object to its
value. Exceptions are results that carry the error code (`Errors`). A run is a sequence of operations
(`Paths.PathOp`, `ChainTheorems.ChainOp`, `Runs.AddressOp`), folded from the default object; the operations
include every public constructor, the setters whether they succeed or fail, and changes made through the
mutable chain and path that an address hands out. `Sessions` makes the same calls on the objects and proves that
they go through the states and get the answers of the run.

Files, from the bottom up: `Text`, `Numbers`, `Quoting`, `Names`, `Errors`; `Levels`, `PathShapes`, `Paths`,
`DerivationPath`; `NssPairs`, `Chains`, `Chain`, `ChainTheorems`; `Compatibility`, `Addresses`, `Address`;
`RoundTrips`, `Printed`, `Runs`, `Observations`, `Sessions`, `Strict`, `Verdicts`, `Languages`, `Setters`; `Rotations`,
`Sha`, `Sha1`, `Sha1Constants`, `Sha256`, `Sha256Constants`, `AddressHash`.

The functions on values are themselves held to a second account, in literal texts, numbers and tables, that shares
no definition with them: the canonical form as eleven pieces (`Printed`), strict validation without the matrix
(`Verdicts`), what every setter stores and that setting a component is parsing with it (`Setters`), the registries
and byte sets (`Names`, `Text`), the path shapes and hardening markers (`PathShapes`, `Levels`), and the hash
constants, rotations and rounds as FIPS 180-4 gives them (`Sha1`, `Sha256`, the lemmas named `...WrittenOut`).

The main results:

| Promise | Theorem |
|---|---|
| After any run the URN parses back to the same address, or it is known why not | `Runs.WholeRunRoundTrip` |
| An address has one canonical form, its components in one fixed order | `Printed.NssWrittenOut` |
| Setting a component is parsing an address with that component | `Setters.CoinSetterParses`, `Setters.DerivationSetterParses` and their like |
| The objects themselves go through the states of a run, and get its answers | `Sessions.Session` |
| One key, one spelling | `Strict.OneKeyOneSpelling`, `Strict.SharedShapes` |
| Strict validation accepts exactly a short table of schemes, algorithms and formats under four rules | `Verdicts.VerdictWrittenOut`, `Strict.SchemesExactly` |
| Every text gets the address it names or the code of its first fault | `Languages.UrnAnswer`, `Languages.NssAnswer`, `Languages.ComponentsAnswer` |
| Text, levels and shortcuts of every reachable path describe one path | `Paths.ReachablePathsAgree` |
| The accepted path texts are exactly the grammar | `PathShapes.LanguageIsValidated` |
| The accepted URNs are exactly a framed sequence of good components, and mean those components | `Languages.UrnMeaning`, `Languages.StrictUrnMeaning` |
| The order of components and unknown components do not matter | `NssPairs.OrderIndependence`, `RoundTrips.AnyOrderParses` |
| A failed call is as if it had never been made, whatever follows, exactly unless it set a path on an address that held no path object | `Runs.FailureIsForgotten` |
| Some run tells two reachable addresses apart, by a text, a verdict or an answer, exactly if they are not one state | `Observations.IndistinguishableExactly` |
| Texts and verdicts alone tell apart all but an untyped path object from a root one | `Observations.AlikeForeverExactly`, `Observations.SameTextSameAddress` |
| Strict acceptance survives printing and default expansion | `Strict.StrictAcceptanceIsStable` |
| An NSS starts with the key of one chain only | `Runs.WholeRunIdentity` |
| The hash code computes the functions of FIPS 180-4 | `Sha1.ComputeHash`, `Sha256.ComputeHash` |

Where the code and its texts differ, the model follows the code:

* Comments in `src/nss_parser.cpp` still speak of "printable ASCII"; the byte set is `nss_byte`, which is
  also the set of section 1.5 of the MHDA specification.
* `marshal_text` asks for a network but not for a chain id. `Runs.MarshalRoundTrip` states exactly when its
  text parses, and `Runs.MarshalWithoutId` gives a run after which it does not.
* A failed `set_derivation_path` on an address without a path leaves a path object without a type behind
  (`Runs.FailedPath`). The text and the verdicts are as before (`Runs.FailureChangesNothing`), and so are they
  after any later call of the address (`Runs.FailureIsForgottenByCalls`); but the object can be edited through
  `path()`, where without the failed call there is none (`Runs.FailedPathCanBeTold`, `Runs.FailedPathExample`).
  `Runs.FailureIsForgotten` gives the exact condition.
* An untyped path object and a root path object print, resolve and validate alike (`Observations.AlikeForeverExactly`),
  but `parse_path` through `path()` answers them differently: `Observations.TwinsExample` gives the input, and
  `Runs.OutcomesRespectCanonical` the exact condition over a run.

## Model

| member | source | states |
|---|---|---|
| Runs.WholeRunRoundTrip | src/address.cpp:56-249 | after any run of constructions, setter calls and accessor edits, the printed URN parses exactly when network, chain id and path are set, and then gives back the whole address; otherwise the error code is known |
| Runs.MarshalRoundTrip | src/address.cpp:243-253 | what `marshal_text` emits after any run can be unmarshalled exactly when the chain has an id |
| Runs.MarshalWithoutId | src/chain.cpp:69-75 | a run after which `marshal_text` succeeds and its text does not parse |
| Runs.ParsedIsFixpoint | src/parser.cpp:47-57 | whatever text was parsed, printing and parsing again gives the same address |
| Runs.ReachableAddresses | include/mhda/address.hpp:20-160 | every reachable address has registered names, NSS bytes in its free forms, and a coherent path |
| Runs.ReachableAddressesExactly | include/mhda/address.hpp:20-160 | and every address like that is reached by some run |
| Runs.ParsedUrnIsOk | src/parser.cpp:15-57 | every parsed address has both halves of its identity and its path set |
| Runs.CanonicalIsSame | src/address.cpp:40-44 | no path, a path without a type and a root path print, resolve and validate alike |
| Runs.WholeRunIdentity | src/address.cpp:172-187 | after any run the NSS starts with the delimited key of its own chain and of no other reachable chain |
| Runs.FailureChangesNothing | src/address.cpp:56-170 | a failed call leaves text, resolved names, type and verdict; every call but `set_derivation_path` leaves the whole state |
| Runs.FailedPath | src/address.cpp:87-102 | the one thing a failed `set_derivation_path` may leave behind is a path object without a type |
| Runs.FailureIsForgotten | src/address.cpp:56-170 | after a failed call every run is answered alike and ends in an address alike the one without the call, exactly unless the call was `set_derivation_path` on an address without a path object |
| Runs.FailureIsForgottenByCalls | src/address.cpp:56-170 | in that case too it holds, answers included, for every run that does not edit the path object |
| Runs.FailedPathCanBeTold | src/address.cpp:87-102 | after such a failure giving the path object a type changes what the address is, where without it nothing happens |
| Runs.FailedPathExample | src/address.cpp:87-98 | on a new address the path "x" is refused, so the case arises |
| Runs.CallsRespectCanonical | src/address.cpp:56-170 | two addresses with one canonical form keep it through every operation, unless it edits a path object that one of them lacks, and get the same answer exactly unless it parses into path objects that differ |
| Runs.ParseTellsKind | src/derivation_path.cpp:259-282 | an untyped and a root path object answer every parse differently, by the code or by one accepting it |
| Runs.RunsRespectCanonical | src/address.cpp:56-170 | every run keeps the canonical form the same, under the same proviso |
| Runs.OutcomesRespectCanonical | src/address.cpp:56-170 | and is answered alike, call by call, exactly if no step parses into path objects that differ by then |
| Observations.SameTextSameAddress | src/address.cpp:172-241 | any two reachable addresses, complete or not, have equal NSS, and equal URNs, exactly when they are the same canonical address |
| Observations.AlikeForeverExactly | src/address.cpp:40-170 | two reachable addresses have equal texts, resolved names, types and verdicts after every run exactly when they have the same canonical form and hold a path object both or neither |
| Observations.TwinsExample | src/derivation_path.cpp:259-282 | two such addresses that differ in the answer to one call: a failed path on a new address, and an empty type set on another |
| Observations.IndistinguishableExactly | src/address.cpp:40-253 | when the answers to calls are observed too, two reachable addresses are alike under every run exactly when they are the same state |
| Sessions.Session | include/mhda/address.hpp:24-163 | any sequence of calls on the objects leaves the address in the state of the run, and is answered as the run is: the theorems about runs hold of the objects |
| Sessions.Call | include/mhda/address.hpp:24-163 | one constructor, setter, accessor edit or unmarshalling on an address object is one operation of a run, answer included |
| Sessions.CallChain | src/chain.cpp:64-126 | one call on a chain object is one operation of a chain run |
| Sessions.CallPath | src/derivation_path.cpp:200-344 | one call on a path object is one operation of a path run |
| Sessions.PrintAndParse | src/address.cpp:237-241 | after any sequence of calls, printing the object and parsing the text gives an object alike, or the code that tells what was missing |
| Languages.UrnLanguage | src/parser.cpp:47-57 | `parse_urn` accepts exactly: space, the prefix in any case, well-formed pairs with good components in any order, space and an r/q/f part |
| Languages.NssLanguage | src/parser.cpp:36-43 | an NSS is accepted exactly when it spells well-formed pairs with good components |
| Languages.NssTextLanguage | src/parser.cpp:65-67 | `parse_nss` accepts exactly such a text between whitespace |
| Languages.ComponentsAccepted | src/parser.cpp:15-34 | good components: a registered nt, a ci, a 32-bit ct if any, a dp of its type's grammar exactly when dt is not root, registered aa and af if any |
| Languages.ComponentsRead | src/parser.cpp:15-34 | the address of good components, field by field: folded names, verbatim id and free forms, the coin's value, the path that the folded dp spells, root without dp |
| Languages.UrnMeaning | src/parser.cpp:47-57 | `parse_urn` returns an address exactly if it is the reading of good components that the text spells |
| Languages.StrictReading | src/address.cpp:255-324 | the conditions of strict validation on components: the network's algorithms and formats without dp, the table and its rules with one |
| Languages.StrictUrnMeaning | src/parser.cpp:59-63 | `parse_urn_strict` returns an address exactly if it is the reading of good components that meet those conditions |
| Languages.FromNssMeaning | src/chain.cpp:86-92 | `from_nss` returns a chain exactly if the trimmed text spells well-formed pairs that name it, whatever the other pairs are |
| Languages.FromNssOfAddress | src/chain.cpp:86-92 | whenever `parse_nss` accepts a text, `from_nss` gives the chain of that address |
| Languages.ComponentsAnswer | src/parser.cpp:15-34 | the answer to every map of kept components: the code of the first fault, in the order nt, ci, ct, dt, dp, aa, af, or the address that they name |
| Languages.NssAnswer | src/parser.cpp:36-43 | an NSS that spells well-formed pairs is answered as its components are; every other one is an invalid NSS |
| Languages.UrnAnswer | src/parser.cpp:47-57 | every text either frames an NSS, by the prefix in any case, space at its end and an r/q/f part, and is answered as that NSS is, or is an invalid URN |
| Languages.StrictAnswer | src/parser.cpp:59-63 | a text that spells good components without the strict conditions is incompatible, and one that `parse_urn` refuses keeps that code |
| Languages.FromNssAnswer | src/chain.cpp:86-92 | the answer of `from_nss` to every text: the code of the first fault of the chain, or the chain |
| Languages.KeyAnswer | src/chain.cpp:94-126 | the answer of `from_key` to a text that spells components: a coin type, a stray component, a missing or unknown half, another spelling, in that order |
| Languages.KeyUnspelled | src/chain.cpp:95-104 | and to a text that spells none: an invalid key for an odd number of tokens, else an invalid NSS |
| Runs.PathCaseFolds | src/address.cpp:100-101 | the path setter of an address answers alike for texts that differ in ASCII case |
| Runs.CapitalPathRefused | src/derivation_path.cpp:51-53 | the path's own parser refuses a capital M |
| Printed.NssWrittenOut | src/address.cpp:172-235 | the canonical form: the NSS of every reachable address as its eleven optional pieces in the order nt, ci, ct, dt, dp, aa, af, ap, as, wt, wi |
| Printed.MarshalWrittenOut | src/address.cpp:237-249 | the URN is `urn:mhda:` and the NSS; when it is given out as the marshalled text, and which code refuses it |
| Printed.KeyWrittenOut | src/chain.cpp:128-134 | the chain key, without the coin type |
| RoundTrips.UrnRoundTrip | src/parser.cpp:15-57 | a coherent address with a complete identity parses back from its URN to itself exactly when its path is set |
| RoundTrips.IncompleteDoesNotParse | src/nss_parser.cpp:61-65 | an address without network or without id prints a text that the parser refuses |
| RoundTrips.NssParses | src/address.cpp:178-235 | the parser finds in a printed NSS exactly the components that the address shows |
| RoundTrips.PrintedText | src/address.cpp:172-235 | the printed NSS is the joined text of the pairs that are set, in the order that `Printed.NssWrittenOut` spells out |
| RoundTrips.AnyOrderParses | src/nss_parser.cpp:48-88 | a URN with the components of an address in any order, among any well-formed unknown pairs, parses like the canonical one |
| RoundTrips.UrnNormalisation | src/parser.cpp:47-67 | outer whitespace, prefix case and an r/q/f part change neither address nor error code |
| RoundTrips.InvalidUrnExactly | src/parser.cpp:47-57 | `invalid_urn` is reported exactly when the trimmed text has no `urn:mhda:` prefix in any case |
| RoundTrips.NssNamesOneChain | src/address.cpp:178-187 | the NSS starts with the delimited key of one chain only |
| RoundTrips.ChainOfNss | src/chain.cpp:86-92 | `from_nss` finds in the NSS of an address its chain, coin type included |
| Strict.OneKeyOneSpelling | src/address.cpp:255-324 | on a network the child numbers of a strictly valid path determine type, algorithm, all fields and text |
| Strict.OneKeyOneUrn | src/parser.cpp:59-63 | the same for any two strictly parsed texts |
| Strict.SchemesExactly | src/compatibility.cpp:25-164 | a network, a type and a resolved algorithm meet on some strictly valid address exactly when they stand in a short table |
| Strict.StrictExactly | src/address.cpp:255-324 | verdict and error code on every reachable address with a path: registered scheme, hardened slip10, no second Cosmos spelling, fitting format |
| Strict.RootExactly | src/address.cpp:261-285 | an address without a path is accepted exactly when the algorithm and format it names are its network's, and otherwise incompatible |
| Verdicts.VerdictWrittenOut | src/address.cpp:255-324 | the verdict and code of strict validation on every reachable address, without the matrix: from which network uses which algorithm and format, the scheme table and the path rules |
| Verdicts.AlgorithmsAgree | src/compatibility.cpp:25-164 | the matrix read by algorithm: the networks of each one, and the usual algorithm of each network |
| Verdicts.FormatsAgree | src/compatibility.cpp:25-164 | the matrix read by format: the networks of each one, and the usual format of each network, which two lack |
| Verdicts.PurposesAgree | src/compatibility.cpp:168-217 | the formats that the purpose of a Bitcoin path binds; no other path binds any |
| Verdicts.ResolvedWrittenOut | src/address.cpp:46-54 | an address resolves to the names it has, and else to what its network uses |
| Strict.SchemeCurves | src/address.cpp:292-316 | on the table the ed25519 types besides cip1852 are exactly slip10, and every entry meets the curve bindings |
| Strict.PermittedOnce | src/address.cpp:284-323 | under the path rules of `validate` the levels of a path fit one type and one algorithm |
| Strict.SharedShapes | src/derivation_path.cpp:91-173 | exactly which other types the levels of a path fit: slip10 always, and bip44 and cip11 where coin and charge allow both |
| Strict.ChildNumbersInjective | src/derivation_path.cpp:30-46 | below 2^31 the BIP-32 child numbers determine the levels |
| Strict.ChildNumbersNeedTheBound | src/derivation_path.cpp:30-33 | without the bound a soft and a hardened level would share a child number |
| Strict.AcceptedPermits | src/address.cpp:255-324 | a strictly valid path has the shape of its type and meets the network, curve, hardening and coin rules |
| Strict.StrictClosure | src/address.cpp:255-324 | the verdict on a complete address is the answer of the strict parser on its URN |
| Strict.StrictClosureOverRuns | src/parser.cpp:59-63 | the same after any run |
| Strict.SomeUrnIsAccepted | src/parser.cpp:59-63 | the strict parser accepts a URN with a path, so the theorems on strict acceptance speak of something |
| Strict.ExpansionKeepsVerdict | src/address.cpp:46-54 | writing the resolved algorithm and format out through the setters never changes the verdict |
| Strict.StrictAcceptanceIsStable | src/parser.cpp:59-63 | a strictly accepted URN stays accepted, as the same address, when printed and when expanded |
| Paths.ReachablePaths | src/derivation_path.cpp:200-344 | every reachable path is coherent: no levels and no shortcuts, or levels of its type's shape and their shortcuts |
| Paths.ReachableExactly | src/derivation_path.cpp:200-344 | and every coherent path is reached by some run |
| Paths.ReachablePathsAgree | src/derivation_path.cpp:200-507 | after any run the template text is the text of the levels, indices are below 2^31, and slip10 has no shortcuts |
| Paths.TemplateAgrees | src/derivation_path.cpp:460-507 | on a coherent path the printing template and the plain level printer give one text |
| Paths.ParseAcceptsLanguage | src/derivation_path.cpp:236-245 | `parse` succeeds exactly on the texts of the grammar and otherwise reports the path |
| Paths.ParsedIsCoherent | src/derivation_path.cpp:269-344 | a parsed path keeps its type, is coherent, and has levels unless it is root |
| Paths.RoundTrip | src/derivation_path.cpp:259-344 | a coherent path with levels is what the parser gives back for its text; a type without levels does not parse |
| Paths.ParseIsFixpoint | src/derivation_path.cpp:236-344 | the text of a parsed path parses to the identical path, and its digits are all exact |
| Paths.PrintedParses | src/derivation_path.cpp:460-507 | for any field values, coherent or not, what the printed text parses to |
| Paths.FromLevelsIsReparsed | src/derivation_path.cpp:181-188 | populating, printing and parsing back accepts exactly the levels that have the shape of the type |
| Paths.MakePathIsReparsed | src/derivation_path.cpp:200-221 | rebuilding, printing and parsing back accepts exactly the levels of the fields that have that shape |
| Paths.TemplateShape | src/derivation_path.cpp:396-429 | rebuilt levels have the shape of the type exactly when the fields in use are in range |
| Paths.MakePathCharacterised | src/derivation_path.cpp:200-221 | the five-field constructor succeeds exactly in range, keeps every field in use, and equals the parse of its text |
| Paths.MakePathIgnores | src/derivation_path.cpp:383-429 | arguments that the type does not use have no influence: any for root, the coin for most, the charge for zip32 |
| Paths.PathIgnoresMarkers | src/derivation_path.cpp:26-46 | path texts that differ only in which of the apostrophe, h and H mark the hardened levels get the same answer |
| Paths.PathAnswers | src/derivation_path.cpp:223-257 | the code of every refusal of `from_levels`, `parse` and `set_type` |
| Paths.MakePathAnswers | src/derivation_path.cpp:200-221 | the code of every refusal of the five-field constructor, slip10 included |
| Paths.ShortcutsAreLevels | src/derivation_path.cpp:290-341 | which level each shortcut of a coherent path is, type by type |
| PathShapes.LanguageIsValidated | src/derivation_path.cpp:34-173 | parser and validators accept exactly the texts of the per-type grammar |
| PathShapes.FiveShape | src/derivation_path.cpp:91-107 | the shape of the six BIP-44-like types as conditions on five levels under the purpose |
| PathShapes.CosmosCardanoShapes | src/derivation_path.cpp:127-146 | the same for cip11 under 44 and 118, and for cip1852 under 1852 and 1815 |
| PathShapes.OtherShapes | src/derivation_path.cpp:109-160 | the same for root, bip32, zip32 of three or four levels, and slip10 of one to 255 |
| PathShapes.ValidatorsFollowTemplates | src/derivation_path.cpp:91-173 | each hand-written validator accepts exactly the levels that fit its template |
| PathShapes.SpellsIffFits | src/derivation_path.cpp:30-46 | a segment is a spelling of a slot exactly when it parses to a level that fits: markers, leading zeros, bounds |
| PathShapes.ValidateDerivationPath | src/derivation_path.cpp:192-198 | the pre-flight check answers true exactly on the grammar, so it agrees with `parse` |
| PathShapes.ValidatedShape | src/derivation_path.cpp:157-173 | what validates gives levels of the type's shape below 2^31 |
| PathShapes.PrintedValidates | src/derivation_path.cpp:446-456 | printed levels validate exactly when they have the shape, and are read back unchanged |
| DerivationPaths.ExtractionAgrees | src/derivation_path.cpp:290-343 | extracting the fields and rebuilding the levels gives back the levels that were read |
| DerivationPaths.DerivationPath.Create | src/derivation_path.cpp:200-221 | the five-field constructor: result, error code, and a valid path on success |
| DerivationPaths.DerivationPath.FromLevels | src/derivation_path.cpp:223-234 | accepts exactly the levels of the declared shape and returns a path with those levels |
| DerivationPaths.DerivationPath.Parse | src/derivation_path.cpp:236-245 | a fresh valid path with the shortcuts of the levels read, or the error code |
| DerivationPaths.DerivationPath.Reparsed | src/derivation_path.cpp:175-188 | the parse of the path's own text, refused unless it has the given levels |
| DerivationPaths.DerivationPath.SetType | src/derivation_path.cpp:247-257 | an equal type changes nothing, a new type empties the path, an unregistered one is refused unchanged |
| DerivationPaths.DerivationPath.ParsePath | src/derivation_path.cpp:259-267 | replaces the whole path, or leaves it unchanged with the error code |
| DerivationPaths.DerivationPath.ParseFresh | src/derivation_path.cpp:269-344 | the per-type extraction gives the path of the levels read; on failure nothing has been written |
| DerivationPaths.DerivationPath.ExtractFields | src/derivation_path.cpp:290-341 | each branch stores the shortcuts of its levels; the final branch is unreachable |
| DerivationPaths.DerivationPath.PopulateShortcuts | src/derivation_path.cpp:346-381 | the shortcuts of however many levels there are |
| DerivationPaths.DerivationPath.RebuildLevels | src/derivation_path.cpp:396-429 | the levels that the printing template shows |
| DerivationPaths.DerivationPath.Str | src/derivation_path.cpp:460-507 | the templates print those levels; on a valid path that is the text of `levels()` |
| DerivationPaths.PrintFive | src/derivation_path.cpp:495-507 | the five-level template prints as its levels do |
| DerivationPaths.PrintZip32 | src/derivation_path.cpp:480-493 | the three- and four-level template prints as its levels do |
| DerivationPaths.PrintBip32 | src/derivation_path.cpp:466-475 | the three-level template prints as its levels do |
| Levels.ComputeParseSegment | src/derivation_path.cpp:30-46 | index below 2^31, hardening marker and exactness of a segment, or nothing |
| Levels.MarkerChars | src/derivation_path.cpp:26-46 | a number below 2^31 and one more character that is no digit is a hardened level exactly for an apostrophe, h and H |
| Levels.LevelsIgnoreMarkers | src/derivation_path.cpp:26-75 | texts that differ only in which of the three stands where are read as the same levels |
| Levels.LevelTextSpelled | src/derivation_path.cpp:446-456 | a hardened level prints with an apostrophe, a soft one as its number |
| Levels.ComputeSplitPath | src/derivation_path.cpp:48-62 | the segments after `m/`; a bare `m` has none; no empty segment |
| Levels.ComputeParseLevels | src/derivation_path.cpp:64-75 | succeeds exactly when the path splits and every segment parses |
| Levels.ParseFormatted | src/derivation_path.cpp:64-75 | printed levels are read back exactly, unless one does not fit 31 bits |
| Levels.ComputeFormatLevels | src/derivation_path.cpp:446-456 | `m` and the level texts joined by slashes |
| Levels.FormatIsName | src/derivation_path.cpp:446-456 | printed levels are lowercase NSS bytes, so a URN can carry them and folding keeps them |
| NssPairs.ComputeParseNss | src/nss_parser.cpp:32-90 | `parse_nss_map` answers as the pass over the paired tokens does |
| NssPairs.ComputeCollect | src/nss_parser.cpp:48-88 | the stepping loop with its early exits fills the map of the whole pass |
| NssPairs.CollectMeans | src/nss_parser.cpp:48-88 | accepted are exactly good pairs without a repeated known key; the map holds their known pairs and nothing else |
| NssPairs.ParseAcceptsWellFormed | src/nss_parser.cpp:32-90 | a text is accepted exactly when it spells such a pair sequence |
| NssPairs.ParsePairs | src/nss_parser.cpp:32-90 | on the text of any pairs, good or bad, the answer depends on exactly those pairs |
| NssPairs.OrderIndependence | src/nss_parser.cpp:48-88 | texts whose known pairs agree up to order give the same map or the same refusal, wherever unknown pairs stand |
| NssPairs.PermutationIndependence | src/nss_parser.cpp:48-88 | any permutation of any pairs, malformed ones included, gives the same answer |
| NssPairs.KeptValues | src/nss_parser.cpp:59-74 | every kept value is a non-empty text of NSS bytes |
| NssPairs.AllNssBytes | src/detail.cpp:84-91 | the byte loop answers whether all bytes may stand in an NSS |
| NssPairs.CheckPair | src/nss_parser.cpp:49-81 | the tests on one pair, the lowercase rule for known keys included |
| NssPairs.GoodPairWrittenOut | src/nss_parser.cpp:49-81 | a pair is good exactly when neither half is empty or holds a foreign byte, and its key is not one of the eleven in another case |
| NssPairs.CaseRule | src/nss_parser.cpp:75-81 | one known key in another case, wherever it stands, makes the whole NSS invalid |
| ChainTheorems.KeysInjective | src/chain.cpp:128-134 | equal keys mean equal network and id, whether or not either half is missing |
| ChainTheorems.ReachableKeysInjective | src/chain.cpp:64-134 | the same for any two runs of chain operations |
| ChainTheorems.OneDelimitedKey | src/chain.cpp:128-134 | a text starts with at most one chain key that ends at its end or at a separator |
| ChainTheorems.FromKeyExactly | src/chain.cpp:94-126 | `from_key` accepts exactly the canonical keys, between whitespace, and returns the chain they spell |
| ChainTheorems.ColonParity | src/chain.cpp:96-103 | after the colon-parity test the tokens pair up, so that fault of the NSS parser is out of reach |
| ChainTheorems.FromNssOfKey | src/chain.cpp:86-92 | a chain key is itself an NSS of its chain |
| ChainTheorems.ReachableChains | src/chain.cpp:64-84 | every reachable chain has a registered or unset network and NSS bytes in its id |
| ChainTheorems.ReachableChainsExactly | src/chain.cpp:64-84 | and every chain like that is reached by some run |
| ChainTheorems.ApplyChainOk | src/chain.cpp:64-84 | every chain operation keeps that, and a failed one changes nothing |
| ChainObjects.Chain.Build | src/chain.cpp:13-54 | the chain of the components or the error code of the first fault |
| ChainObjects.Chain.Create | src/chain.cpp:64-67 | a chain with a registered network and a trimmed id, or the error code |
| ChainObjects.Chain.SetNetwork | src/chain.cpp:69-75 | stores a registered network or changes nothing |
| ChainObjects.Chain.SetChainId | src/chain.cpp:77-84 | stores the trimmed id of NSS bytes or changes nothing, with the code of the fault |
| ChainObjects.Chain.FromNss | src/chain.cpp:86-92 | the chain found in an NSS, or the error code |
| ChainObjects.Chain.FromKey | src/chain.cpp:94-126 | the chain of a canonical key, or the code of the first failed test |
| ChainObjects.CountColons | src/chain.cpp:98-99 | the number of separators |
| ChainObjects.HasStrayKey | src/chain.cpp:108-113 | whatever the order of iteration, whether a component besides nt and ci is there |
| ChainObjects.Chain.Str | src/chain.cpp:128-134 | the key, without the coin type |
| Setters.CoinStored | src/address.cpp:104-116 | a printed number between whitespace is stored as the coin type |
| Setters.CoinClearedOrRefused | src/address.cpp:104-116 | whitespace alone clears the coin type; what is no 32-bit number is refused |
| Setters.CoinSetterParses | src/address.cpp:104-116 | on the address of any good components, setting the coin type answers as parsing with that ct does |
| Setters.AlgorithmSetterParses | src/address.cpp:118-131 | the same for the algorithm and aa |
| Setters.FormatSetterParses | src/address.cpp:133-146 | the same for the format and af |
| Setters.FreeFormSetterParses | src/address.cpp:148-170 | the same for each of the four free forms and its own component |
| Setters.DerivationSetterParses | src/address.cpp:71-76 | the same for type and path together, refusals included |
| Setters.AlgorithmStored | src/address.cpp:118-131 | the algorithm stored, cleared or refused |
| Setters.FormatStored | src/address.cpp:133-146 | the format stored, cleared or refused |
| Setters.FreeFormsStored | src/address.cpp:148-170 | each free form is stored, trimmed, in its own field, or refused for a byte |
| Setters.TypeStored | src/address.cpp:56-69 | a new type takes the place of the whole path; the same type changes nothing |
| Setters.PathStored | src/address.cpp:87-102 | the address and the code after the path setter, for no path, an untyped or root path, and any other |
| Setters.DerivationStored | src/address.cpp:71-76 | type and path set together do not depend on what was set before |
| Setters.ChainStored | src/chain.cpp:64-84 | what the chain constructor and setters store, and the code of each refusal |
| Setters.Constructed | src/address.cpp:27-38 | which field each argument of the constructor sets, and which fault it reports |
| Setters.DefaultsWrittenOut | include/mhda/address.hpp:155-162 | the default address has nothing set |
| Compatibility.MatrixIsClosed | src/compatibility.cpp:25-217 | the matrix has a row for exactly the registered networks; defaults and bindings lie inside the row (what the rows hold is in `Verdicts`) |
| AddressObjects.Address.Of | src/address.cpp:27-38 | an address that owns copies of the given chain and path |
| AddressObjects.Address.Create | src/address.cpp:27-38 | the constructor with texts: empty ones are unset, the first bad one decides the error |
| AddressObjects.Address.GetDerivationType | src/address.cpp:40-44 | no path and a path without a type read as root |
| AddressObjects.Address.ResolvedAlgorithm | src/address.cpp:46-49 | the algorithm set, or the network's default |
| AddressObjects.Address.ResolvedFormat | src/address.cpp:51-54 | the format set, or the network's default |
| AddressObjects.Address.SetDerivationType | src/address.cpp:56-69 | sets the type on an existing or new path, or changes nothing |
| AddressObjects.Address.SetDerivation | src/address.cpp:71-76 | sets type and path together through a scratch address, or changes nothing |
| AddressObjects.Address.SetDerivationPath | src/address.cpp:87-102 | parses the folded text under the type; the exact state on failure, a newly allocated path included |
| AddressObjects.Address.SetCoinType | src/address.cpp:104-116 | the new state and code that `Setters.CoinStored` and `Setters.CoinClearedOrRefused` spell out |
| AddressObjects.Address.SetAddressAlgorithm | src/address.cpp:118-131 | sets or clears a registered algorithm, or changes nothing |
| AddressObjects.Address.SetAddressFormat | src/address.cpp:133-146 | sets or clears a registered format, or changes nothing |
| AddressObjects.Address.SetAddressPrefix | src/address.cpp:148-152 | stores the trimmed NSS bytes, or changes nothing |
| AddressObjects.Address.SetAddressSuffix | src/address.cpp:154-158 | stores the trimmed NSS bytes, or changes nothing |
| AddressObjects.Address.SetWalletType | src/address.cpp:160-164 | stores the trimmed NSS bytes, or changes nothing |
| AddressObjects.Address.SetWalletId | src/address.cpp:166-170 | stores the trimmed NSS bytes, or changes nothing |
| AddressObjects.Address.Nss | src/address.cpp:178-235 | the step-by-step printer gives the text that `Printed.NssWrittenOut` spells out |
| AddressObjects.Address.Str | src/address.cpp:237-241 | the prefix and the NSS |
| AddressObjects.Address.CheckPathSet | src/address.cpp:78-85 | refuses exactly a non-root type without levels |
| AddressObjects.Address.MarshalText | src/address.cpp:243-249 | the URN, or the error for a missing network or path |
| AddressObjects.Address.UnmarshalText | src/address.cpp:251-253 | becomes the parsed address, or stays exactly as it was |
| AddressObjects.Address.Validate | src/address.cpp:255-324 | the verdict and error code that `Verdicts.VerdictWrittenOut` spells out |
| AddressObjects.Address.ValidatePath | src/address.cpp:284-323 | the tests on a path, the level loop for ed25519 included |
| AddressObjects.Address.FromComponents | src/parser.cpp:15-34 | the address of the components, set field by field, or the code of the first fault |
| AddressObjects.Address.ParseAddressNss | src/parser.cpp:36-43 | the address of an NSS, or the error code |
| AddressObjects.Address.ParseUrn | src/parser.cpp:47-57 | the address of a URN, or the error code |
| AddressObjects.Address.ParseUrnStrict | src/parser.cpp:59-63 | the parsed address if it validates, or the first error code |
| AddressObjects.Address.ParseNssText | src/parser.cpp:65-67 | the address of a trimmed NSS, or the error code |
| AddressObjects.ValidateFreeForm | src/detail.cpp:84-91 | the trimmed value if all its bytes may stand in an NSS |
| Numbers.ParseInBase | src/detail.cpp:14-37 | with 64-bit arithmetic and early exits: the value, exactly when the unbounded value fits 64 bits |
| Numbers.OverflowTest | src/detail.cpp:29-32 | the division test holds exactly when the next step would leave 64 bits |
| Numbers.ComputeParseUint32 | src/detail.cpp:41-55 | decimal or 0x-hexadecimal, the true value exactly when it is below 2^32 |
| Numbers.ComputeParseUint31 | src/detail.cpp:93-99 | decimal only, the true value exactly when it is below 2^31 |
| Numbers.DecimalSound | src/derivation_path.cpp:433-444 | a printed number has no superfluous zero and is read back to its value |
| Numbers.DecimalComplete | src/derivation_path.cpp:433-444 | a canonical numeral is the only canonical spelling of its value |
| Numbers.DecimalLength | src/derivation_path.cpp:433-444 | a 32-bit number prints in one to ten digits |
| Numbers.ParsePrinted | src/detail.cpp:41-99 | both readers give a printed number back when it is in their range |
| Numbers.Uint32Exactly | src/detail.cpp:41-55 | the texts that `parse_uint32` reads as a number: its decimal numerals, and its hexadecimal ones after 0x or 0X |
| Numbers.Uint31Exactly | src/detail.cpp:93-99 | the texts that `parse_uint31_dec` reads as a number: its decimal numerals, if it is below 2^31 |
| Numbers.ValueHead | src/detail.cpp:14-37 | positional notation: the first digit counts for the power of its place |
| Numbers.LetterDigits | src/detail.cpp:19-27 | the hexadecimal letters of either case count for ten to fifteen |
| Numbers.FillDigits | src/address.cpp:19-21 | the digit loop stays inside its buffer and stores the numeral backwards |
| Numbers.AppendUint32 | src/derivation_path.cpp:433-444 | appends the numeral, through the second buffer |
| Numbers.PushUint32 | src/address.cpp:17-23 | appends the numeral, digit by digit |
| Quoting.ComputeQuote | src/detail.cpp:57-82 | the per-byte loop writes the escaped text |
| Quoting.UnquoteQuote | src/detail.cpp:57-82 | a decoder that stops at the first unescaped quote reads every quoted byte string back |
| Quoting.QuoteInjective | src/detail.cpp:57-82 | distinct byte strings have distinct quoted texts |
| Quoting.QuotePrintable | src/detail.cpp:57-82 | a quoted text is printable ASCII whatever it quotes |
| Quoting.EscapeTable | src/detail.cpp:57-82 | the escape of every byte |
| Text.ComputeTrim | src/detail.hpp:25-32 | the index loops remove all outer whitespace and nothing else |
| Text.ComputeTrimRight | src/detail.hpp:50-55 | the same at the end only |
| Text.TrimUnique | src/detail.hpp:25-32 | the trimmed text is the one text without outer whitespace that padding turns into the input |
| Text.ComputeNssByte | src/detail.hpp:34-48 | the table scan answers for exactly the NSS bytes |
| Text.ComputeToLower | src/detail.hpp:57-63 | folds ASCII capitals byte by byte |
| Text.EqualAsciiFold | src/detail.hpp:70-77 | true exactly when the folded texts are equal |
| Text.StripRqfAt | src/detail.hpp:86-92 | cuts at the first ? or # |
| Text.ComputeSplit | src/detail.hpp:94-106 | the accumulating loop gives the split |
| Text.SplitJoin | src/detail.hpp:94-106 | splitting undoes joining when no part holds the separator |
| Text.JoinSplit | src/detail.hpp:94-106 | joining undoes splitting, and no part holds the separator |
| Text.SplitCount | src/detail.hpp:94-106 | there is one part more than there are separators |
| Text.SpaceCodes | src/detail.hpp:21-23 | the six whitespace bytes by code |
| Text.NssByteCodes | src/detail.hpp:34-48 | the bytes of an NSS: visible ASCII but for fifteen characters |
| Text.LowerTable | src/detail.hpp:57-63 | folding takes the capitals A to Z to a to z and leaves every other byte |
| Text.OpenerCodes | src/detail.hpp:86-92 | the r/q/f part starts at ? or # |
| Sha.ZeroBytesLeast | src/hash.cpp:67-75 | the padding is the least that section 5.1.1 of FIPS 180-4 allows |
| Sha.BuildTail | src/hash.cpp:67-75 | full blocks and the one or two tail blocks are the padded message; every write is in bounds |
| Sha.PadLength | src/hash.cpp:72-75 | the last eight bytes of the padded message give the length in bits |
| Sha.PadInjective | src/hash.cpp:58-87 | no two messages below 2^61 bytes pad to the same blocks |
| Sha.BigEndianRead | src/hash.cpp:73-75 | the length bytes are read back to the length |
| Sha.BigEndianAt | src/hash.cpp:73-75 | each stored byte is the shifted length of the source |
| Sha.WordIsBigEndian | src/hash.cpp:35-40 | the shifts and ORs read four bytes of a block as one big-endian number |
| Sha.WordBytesAreBigEndian | src/hash.cpp:80-85 | the shifts and casts write a word as its four big-endian bytes |
| Sha.WriteLength | src/hash.cpp:73-75 | the length loop writes the big-endian length and nothing else |
| Sha.PrintWords | src/hash.cpp:79-85 | the output is the big-endian bytes of each word in order |
| Sha.ComputeToHex | src/hash.cpp:15-21 | two lowercase digits for each byte |
| Sha.ToHexInjective | src/hash.cpp:15-21 | equal hexadecimal texts mean equal digests |
| Sha.ToHexWrittenOut | src/hash.cpp:15-21 | which two digits stand for each byte |
| Sha.PadWrittenOut | src/hash.cpp:67-75 | the padded message: the message, 0x80, zeros and eight more bytes |
| Rotations.Left5 | src/hash.cpp:23-25 | the rotation left by five as arithmetic on values: what leaves the 32 bits comes back at the bottom; `Left1` and `Left30` alike |
| Rotations.Right6 | src/hash.cpp:27-29 | the rotation right by six as arithmetic on values; `Right2` to `Right25` alike, one for each count of SHA-256 |
| Sha1.ChForm | src/hash.cpp:48-48 | the OR form of Ch is the XOR form of section 4.1.1 of FIPS 180-4 |
| Sha1.MajForm | src/hash.cpp:50-50 | the OR form of Maj is the XOR form of the same section |
| Sha1.RoundFunctionIsF | src/hash.cpp:48-51 | the four branches give the function of the standard's round |
| Sha1.FillBlock | src/hash.cpp:35-40 | the first loop stores the sixteen words of the block, which head the schedule |
| Sha1.FillSchedule | src/hash.cpp:34-43 | the array filled in place is the message schedule of section 6.1.2 |
| Sha1.Rotate | src/hash.cpp:47-53 | the body of the round loop, on the rotating variables, is one round of the standard |
| Sha1.RunRounds | src/hash.cpp:45-54 | the round loop gives the working variables after 80 rounds |
| Sha1.CompressInPlace | src/hash.cpp:33-56 | the state becomes the intermediate hash value of section 6.1.2 |
| Sha1.ComputeHash | src/hash.cpp:58-87 | the digest of section 6.1 for every message |
| Sha1.StepsWrittenOut | src/hash.cpp:52-52 | the sum of the standard's round, with the rotation by five |
| Sha1.MixWrittenOut | src/hash.cpp:42-42 | the word of the standard's schedule, with the rotation by one |
| Sha1.ScheduleWrittenOut | src/hash.cpp:34-43 | each word of the schedule comes from the words before it |
| Sha1.HashWrittenOut | src/hash.cpp:79-85 | the digest is the words of the last hash value in order, each most significant byte first |
| Sha1Constants.ConstantsAreRoots | src/hash.cpp:48-51 | the round constants are the square roots of 2, 3, 5 and 10, scaled by 2^30 |
| Sha1Constants.InitialCounts | src/hash.cpp:59-61 | the bytes of the initial words, least significant first, count up, down and up again |
| Sha256.SourceMixIsMix | src/hash.cpp:111-113 | the source's order of addition in the schedule is the standard's value |
| Sha256.FillBlock | src/hash.cpp:104-109 | the first loop stores the sixteen words of the block, which head the schedule |
| Sha256.FillSchedule | src/hash.cpp:103-114 | the array filled in place is the message schedule of section 6.2.2 |
| Sha256.Rotate | src/hash.cpp:118-126 | the body of the round loop, on the rotating variables, is one round of the standard |
| Sha256.RunRounds | src/hash.cpp:116-126 | the round loop gives the working variables after 64 rounds |
| Sha256.CompressInPlace | src/hash.cpp:102-129 | the state becomes the intermediate hash value of section 6.2.2 |
| Sha256.ComputeHash | src/hash.cpp:131-161 | the digest of section 6.2 for every message |
| Sha256.SigmasWrittenOut | src/hash.cpp:111-122 | the four sigmas with the counts of section 4.1.2 of FIPS 180-4 |
| Sha256.ChWrittenOut | src/hash.cpp:120-120 | Ch takes the bits of y where x has a one and those of z elsewhere |
| Sha256.MajWrittenOut | src/hash.cpp:123-123 | Maj takes the bits that two of the three words have |
| Sha256.ScheduleWrittenOut | src/hash.cpp:103-114 | each word of the schedule comes from the words before it |
| Sha256.HashWrittenOut | src/hash.cpp:153-160 | the digest is the words of the last hash value in order, each most significant byte first |
| Sha256Constants.ConstantsAreCubeRoots | src/hash.cpp:91-100 | each round constant is the first 32 fractional bits of the cube root of the prime listed for it |
| Sha256Constants.InitialIsSquareRoots | src/hash.cpp:132-135 | each initial word is the first 32 fractional bits of the square root of its prime |
| AddressHashes.Hash | src/address.cpp:326-328 | the hexadecimal SHA-1 of the URN |
| AddressHashes.NssHash | src/address.cpp:330-332 | the hexadecimal SHA-1 of the NSS |
| AddressHashes.Hash256 | src/address.cpp:334-336 | the hexadecimal SHA-256 of the URN |
| AddressHashes.NssHash256 | src/address.cpp:338-340 | the hexadecimal SHA-256 of the NSS |
| AddressHashes.HashedBlocksNameTheAddress | src/address.cpp:326-336 | reachable addresses whose hashed blocks are equal are the same address |
| Names.WrappersAreTexts | include/mhda/network_type.hpp:12-42 | the model of each of the four string wrappers prints as its text and is equal exactly for equal texts |
| Names.ComponentKeys | src/nss_parser.hpp:12-24 | the known keys are eleven lowercase names, each of one component |
| Names.KeysListed | src/nss_parser.hpp:12-24 | the eleven keys, as a list of texts |
| Names.NetworkTypeRegistry | include/mhda/network_type.hpp:52-65 | the fourteen network names; no other text is registered |
| Names.AlgorithmRegistry | include/mhda/algorithm.hpp:40-46 | the seven algorithm names; no other text is registered |
| Names.FormatRegistry | include/mhda/format.hpp:46-58 | the thirteen format names; no other text is registered |
| Names.DerivationTypeRegistry | include/mhda/derivation_type.hpp:45-56 | the twelve derivation type names; no other text is registered |

## Left out

- The private steps `SetFormatDomain` and `SetFreeForms` of the parser, and `SetGivenFormat` and `SetGivenAffixes` of the constructor, fix the state only on success: the half-filled address is dropped otherwise.
- Runs.WholeRunRoundTrip: a run edits a path through `path()` only when there is one; dereferencing the empty optional is undefined in the source and a no-op in a run.
- Sha.PadInjective: for messages below 2^61 bytes, the longest whose bit length fits the 64-bit field.
- Sha256Constants.ConstantsAreCubeRoots: the primes are a written-out table; that it lists the first sixty-four is not proved.
- Strings are sequences of Dafny characters, one per byte; only `quote` needs to know that a byte is below 256, and it requires it.
- The tail of the padding, its length bytes and the hexadecimal printer, which the two hashes of the source repeat, are modelled once (`Sha`); the state and schedule arrays are updated element by element, with each sum computed before it is stored.
- `find_first_of` in `strip_rqf` and in the NSS parser is a recursive function and a quantifier, not a loop.
- Registered names are constructors, not strings; the wrapper classes around them are `NetworkType`, `Algorithm`, `Format` and `DerivationType`, with `Other` for a text outside the registry.
- An address owns its chain and path objects; sharing one chain or path object between two addresses cannot happen in the source, which holds them by value, and is not modelled.
- The wording of error messages: only the codes are modelled, and `quote` as a function.
- The `from_string` helpers of the registries and the named coin constants: table lookups.
- Static initialisation, move semantics, `reserve` and allocation failure: C++ runtime matters.
- Concurrency: the library keeps no shared mutable state.
- Cryptographic strength of the hashes and key derivation itself: the library claims neither.
- Equivalence with the Go implementation that the comments mention: its code is not part of this model.
