# Traefik v1 Ingress to Traefik v2 migration: a Dafny model of the conversion core

This project models the core of the traefik-migration-tool's `ingress` package.
The tool rewrites Kubernetes manifests written for Traefik v1 for Traefik v2.
It reads each manifest file, expands List documents that hold Ingresses into one
document per Ingress, and converts every Ingress. The Traefik v1 annotations on
each Ingress are compiled into Traefik v2 `Middleware` objects, and the rewritten
Ingress gets a `router.middlewares` annotation that references those objects.
All documents are then written back, separated by `---\n`.

The model covers the following:

- **`GoStrings`**: the pieces of Go's `strings` package the tool relies on
  (`Split`, `Join`, `Contains`, `FieldsFunc`) and Go's string order.
  - `Split` and `Join` round-trip.
  - Splitting a comma-join of comma-free strings gives the list back.
- **`Names`**: `normalizeObjectName`.
- **`Resources`**: the Ingress, its rules and paths, the Middleware, and the
  reference `<namespace>-<name>@kubernetescrd`.
- **`RuleTypes`**: `extractRuleType`.
- **`Items`**: `extractItems`, a loop that partitions the items of a List.
- **`Sorting`**: the in-place sort of the middlewares by name, on an `array`.
- **`Compiler`**: `convertIngress`, modelled as imperative methods, one per
  stage (resource-level appends, the path loop, the rule loop, the final join
  and sort). Each method is proved equal to the functional specification
  `Compile` / `ConvertedIngress`.
- **`CompilerProperties`**: what `convertIngress` promises.
- **`Manifests`**: `expandFileContent` and `convertFile` without the file
  system. Each is a loop over the `---` parts, proved equal to a fold
  (`ExpandFile`, `ConvertFile`).
- **`ManifestProperties`**: the pass-through, expansion and layout properties
  of those loops.

The helpers that `convertIngress` calls are defined in files that are not part
of this model. They are passed in as the function-valued fields of `Helpers`:

- the annotation lookup behind `getStringValue`;
- `getAuthMiddleware`, `getHeadersMiddleware` and `getWhiteList`;
- `parseRequestModifier`;
- `getFrontendRedirect`;
- `getStripPrefix`;
- `getReplacePathRegex`;
- `getFrontendRedirectAppRoot`.

The YAML libraries are passed in as the fields of `Codec`. The properties
proved here therefore hold for every behaviour of those helpers.

Two behaviours of the code are worth stating, because a reader might expect
otherwise; the model follows the code in both:

- `normalizeObjectName` keeps the hyphens that are already in a name,
  including leading, trailing and repeated ones, so `"-a"` stays `"-a"`.
- A part that the unstructured YAML decoder rejects makes the whole file fail
  (ingress/ingress.go:87-90). Only a part that the typed decoder (`parseYaml`)
  rejects is passed through.

## Model

| member | source | states |
|---|---|---|
| GoStrings.Split | ingress/ingress.go:80 | `strings.Split` on a non-empty separator yields at least one part |
| GoStrings.JoinSplit | ingress/ingress.go:143 | joining the parts of a split with the same separator gives back the original content, so splitting on `---` loses no text |
| GoStrings.SplitPartsLackSeparator | ingress/ingress.go:80 | no part of `strings.Split(s, sep)` contains `sep`, and the first part is a prefix of `s` |
| GoStrings.SplitJoin | ingress/ingress.go:328-330 | splitting a comma-join of strings that hold no comma recovers exactly the list of strings |
| GoStrings.ContainsOccurrence | ingress/ingress.go:235 | `strings.Contains(s, sub)` holds iff `sub` occurs at some index of `s` |
| GoStrings.BelowIrreflexive | ingress/ingress.go:332 | no name sorts before itself under Go's string `<` |
| GoStrings.BelowTransitive | ingress/ingress.go:332 | Go's string `<` is transitive |
| GoStrings.BelowTotal | ingress/ingress.go:332 | of two different names one sorts before the other |
| GoStrings.BelowAsymmetric | ingress/ingress.go:332 | two names never sort before each other |
| GoStrings.AtMostTransitive | ingress/ingress.go:332 | "not after" is transitive, so pairwise sortedness is consistent |
| GoStrings.Word | ingress/ingress.go:391 | the first field of `FieldsFunc` is a prefix free of separators that stops at a separator or at the end |
| GoStrings.FieldsFunc | ingress/ingress.go:391 | every field is non-empty and free of separator characters |
| Names.NormalizeObjectName | ingress/ingress.go:386-392 | the result holds only letters, digits and `-` and is no longer than the input |
| Names.NormalizeKeepsNames | ingress/ingress.go:386-392 | a name made only of letters, digits and `-` comes back unchanged, with its hyphens |
| Names.NormalizeIdempotent | ingress/ingress.go:386-392 | normalizing twice is normalizing once |
| Names.NormalizeDropsLeadingSeparator | ingress/ingress.go:386-392 | a leading run of other characters vanishes |
| Names.NormalizeRun | ingress/ingress.go:386-392 | a run of other characters after a word becomes exactly one `-` before what follows, and vanishes when nothing normalizable follows |
| Names.NormalizeKeepsLeadingHyphen | ingress/ingress.go:386-392 | `"-a"` normalizes to `"-a"` |
| Names.JoinedFieldsAreNames | ingress/ingress.go:391 | joining separator-free fields with `-` gives a valid name |
| Resources.Reference | ingress/ingress.go:255 | the reference is the namespace, `-`, the name and `@kubernetescrd`: its length and its first and last pieces |
| Resources.SslRefIsNotSynthesized | ingress/ingress.go:245-247 | `ssl-redirect@file` is never the reference of a synthesized middleware |
| Resources.GetStringValue | ingress/ingress.go:344 | a present non-empty value is returned; an absent or empty annotation yields the default, so the result is empty only when the default is |
| RuleTypes.ResolveRuleType | ingress/ingress.go:345-358 | the value is accepted iff it is Path, PathPrefix, PathStrip, PathPrefixStrip or ReplacePath; a rejected value is the error; strip iff a `...Strip` value; the resolved type plus `Strip` when stripping spells the value |
| RuleTypes.ResolvedIsFixedPoint | ingress/ingress.go:345-358 | a resolved rule type is itself accepted, unchanged and without strip |
| RuleTypes.ExtractRuleType | ingress/ingress.go:342-361 | without the annotation, or with it set to `""`, the result is (PathPrefix, no strip); with a non-empty value, that value resolved as above |
| Items.ExtractItems | ingress/ingress.go:210-224 | the loop yields the kept and converted items; their counts add up to the items'; an item is converted iff it is an `extensions/v1beta1` or `networking.k8s.io/v1` Ingress |
| Items.PartitionSizes | ingress/ingress.go:210-224 | no item is lost or duplicated: the sizes add up and the multisets add up |
| Items.PartitionMembers | ingress/ingress.go:210-224 | membership in each side is membership in the items plus the Ingress test or its negation |
| Items.PartitionOfConcat | ingress/ingress.go:210-224 | the partition of a concatenation is the concatenation of the partitions, so the order is preserved |
| Items.NothingToConvert | ingress/ingress.go:165-170 | nothing to convert iff the kept items are all the items, the test that keeps a List verbatim |
| Items.KeepAllWhenNoIngress | ingress/ingress.go:165-170 | with no Ingress item every item is kept, in order |
| Sorting.SortByNameCorrect | ingress/ingress.go:332 | the sort specification yields a list sorted by name that is a permutation of its input |
| Sorting.InsertSorted | ingress/ingress.go:332 | inserting into a sorted list keeps it sorted |
| Sorting.InsertPermutes | ingress/ingress.go:332 | inserting adds exactly the inserted middleware |
| Sorting.SortInPlace | ingress/ingress.go:332 | the array ends up holding the sorted permutation of its old contents |
| Sorting.InsertInPlace | ingress/ingress.go:332 | one insertion step in place: the prefix becomes the insertion of the next element, the rest is untouched |
| Compiler.References | ingress/ingress.go:255 | one reference per middleware, position by position |
| Compiler.VisitedPathsAsWritten | ingress/ingress.go:298-299 | reading `rule.HTTP.Paths` rule by rule, as written, fails iff one of the rules read has no `http` block |
| Compiler.NoNonEmptyPathExtended | ingress/ingress.go:307-312 | a prefix of rules without a non-empty path stays so when the next rule has none |
| Compiler.AllPathsEmptyIff | ingress/ingress.go:299-312 | the abort test on a rule's paths holds iff every one of its paths is empty |
| Compiler.HasNonEmptyPathIff | ingress/ingress.go:297-312 | the abort test on the rules holds iff some path of some rule is non-empty |
| Compiler.AppendIfPresent | ingress/ingress.go:252-256 | a nil middleware adds nothing; another adds itself and its reference |
| Compiler.AppendBuiltMiddlewares | ingress/ingress.go:251-270 | auth, headers and whitelist are appended in that order, with their references |
| Compiler.AppendResourceMiddlewares | ingress/ingress.go:251-290 | the resource-level middlewares are appended in order with their references: auth, headers, whitelist, the request modifier when it parses, the frontend redirect when no app-root is set |
| Compiler.ConvertPath | ingress/ingress.go:299-325 | for one path: aborts iff the path is non-empty, a rewrite target is set and the rule type is ReplacePath; otherwise appends strip-prefix, replace-path-regex and app-root redirect as specified |
| Compiler.ConvertPathAt | ingress/ingress.go:299-325 | one turn of the path loop: it aborts only when a rewrite target meets ReplacePath and the rule has a non-empty path; otherwise what the loop has appended grows by that path's middlewares and their references |
| Compiler.ConvertPaths | ingress/ingress.go:298-326 | for one rule: aborts iff a rewrite target meets ReplacePath and some path of the rule is non-empty; otherwise appends the per-path middlewares in path order |
| Compiler.ConvertRules | ingress/ingress.go:297-326 | over all rules: aborts iff a rewrite target meets ReplacePath and some path of some rule is non-empty; otherwise appends the middlewares rule by rule |
| Compiler.CollectMiddlewares | ingress/ingress.go:244-326 | the synthesized middlewares, or none on an abort; the references are the SSL reference when set followed by one reference per middleware |
| Compiler.Finish | ingress/ingress.go:328-339 | `router.middlewares` is set to the comma-join iff there is a reference; the middlewares are sorted by name |
| Compiler.ConvertIngress | ingress/ingress.go:226-340 | the whole conversion equals its specification `ConvertedIngress` |
| CompilerProperties.OtherClassPassesThrough | ingress/ingress.go:233-237 | an Ingress of a class other than traefik comes back as it was, with no middleware |
| CompilerProperties.PathsMiddlewaresConcat | ingress/ingress.go:298-326 | paths are visited in order: the middlewares of a concatenation of paths are the concatenation of their middlewares |
| CompilerProperties.RulesMiddlewaresConcat | ingress/ingress.go:297-326 | rules are visited in order, in the same sense |
| CompilerProperties.RuleWithoutHttpAddsNothing | ingress/ingress.go:297-299 | a rule without an `http` block contributes no middleware, wherever it stands |
| CompilerProperties.HostOnlyRule | ingress/ingress.go:298-299 | a host-only rule makes the loop as written fail, while the corrected conversion passes over it |
| CompilerProperties.PathContribution | ingress/ingress.go:299-325 | one path contributes at most three middlewares: strip-prefix first, the app-root redirect last, the regex rewrite when a rewrite target is set; an empty path gets only the app-root redirect |
| CompilerProperties.AbortedIff | ingress/ingress.go:292-312 | the conversion aborts iff the class gate passes and either the rule type is not one of the five accepted values, or a rewrite target is set with rule type ReplacePath and some path of some rule is non-empty |
| CompilerProperties.ReferenceWithoutComma | ingress/ingress.go:255 | a reference holds a comma only if the namespace or the name does |
| CompilerProperties.ChainRoundTrip | ingress/ingress.go:244-330 | `router.middlewares` is written when there is a reference and splits back into the SSL reference (when set) followed by each middleware's reference in synthesis order, one more entry than middlewares with SSL and as many without; with no reference only the entrypoints copy changes the annotations |
| CompilerProperties.RouterChainRoundTrip | ingress/ingress.go:328-330 | for any middlewares whose namespaces and names hold no comma, the joined annotation splits back into the SSL reference (when set) and then one reference per middleware, in order |
| CompilerProperties.SslReferenceStandsAlone | ingress/ingress.go:245-247 | the SSL reference is in the chain iff the SSL annotation is set, and never as a middleware's reference |
| CompilerProperties.AnnotationsKept | ingress/ingress.go:240-243 | `router.entrypoints` is set to the entrypoints only when they are set; every other annotation except `router.middlewares` is kept |
| CompilerProperties.RouterAnnotationsKeep | ingress/ingress.go:240-243 | around any chain, the entrypoints copy is made only when set and every annotation other than the two router keys is kept |
| CompilerProperties.ConvertedIsSortedPermutation | ingress/ingress.go:332-339 | the returned middlewares are sorted by name and are a permutation of those synthesized; the Ingress is the synthesized one |
| CompilerProperties.SslOnly | ingress/ingress.go:245-247 | with only the SSL redirect in effect the chain is exactly `ssl-redirect@file` and there is no middleware |
| Manifests.KeptParts | ingress/ingress.go:82-85 | a part is kept iff it is a non-blank part of the input; there are no more kept parts than parts |
| Manifests.KeptPartsConcat | ingress/ingress.go:80-85 | the kept parts of a concatenation are those of each piece in turn, so the kept parts keep the order of the file |
| Manifests.KeptPartsLast | ingress/ingress.go:82-85 | the last part is kept, after the others, iff it is not blank |
| Manifests.EncodeAll | ingress/ingress.go:125-131 | all elements encode iff each does; then one encoding per element in order; a failure is some element's failure |
| Manifests.EncodeEach | ingress/ingress.go:188-194 | the encoding loop equals `EncodeAll` |
| Manifests.EncodeAllStopsAtFailure | ingress/ingress.go:188-194 | once a prefix fails, the loop has failed with that error |
| Manifests.ExpandPartsStopsAtFailure | ingress/ingress.go:145-153 | the first failing part decides the error of the file |
| Manifests.ConvertPartsStopsAtFailure | ingress/ingress.go:82-90 | the first failing part decides the error of the file |
| Manifests.ExpandPartContent | ingress/ingress.go:150-194 | the expansion of one part, its List-ness decided by decoding `source`, equals `ExpandPart`: a non-List or a List without Ingress is kept verbatim, otherwise the kept items as one List and each Ingress item on its own |
| Manifests.ExpandFileContent | ingress/ingress.go:137-198 | the loop over the `---` parts equals `ExpandFile` |
| Manifests.EmitConversionContent | ingress/ingress.go:119-131 | the fragments of an Ingress equal `EmitConversion` |
| Manifests.ConvertPartContent | ingress/ingress.go:87-131 | the conversion of one part equals `ConvertPart` |
| Manifests.ConvertPartsContent | ingress/ingress.go:80-132 | the loop over the parts of the expanded content equals `ConvertParts`, stopping at the first failing part |
| Manifests.ConvertFileContent | ingress/ingress.go:69-135 | the conversion of a file's content equals `ConvertFile` |
| ManifestProperties.ExpandedListLayout | ingress/ingress.go:165-194 | a List without Ingresses stays verbatim; otherwise the remaining items as one List when there are any, then each Ingress item marshalled, in order |
| ManifestProperties.NoListPassesThrough | ingress/ingress.go:145-158 | when no part is a List, the non-blank parts come back verbatim and in order |
| ManifestProperties.ListPartExpanded | ingress/ingress.go:143-194 | every Ingress item of a List part is among the fragments of the file, marshalled on its own |
| ManifestProperties.ListItemExpanded | ingress/ingress.go:165-194 | each Ingress item of a List part is among that part's own fragments, marshalled on its own |
| ManifestProperties.AsWrittenIgnoresPartLists | ingress/ingress.go:150 | as written, when the whole file decodes to a single object, every part comes back verbatim, List or not |
| ManifestProperties.LaterListNotExpandedAsWritten | ingress/ingress.go:150 | a Service followed by a List with an Ingress: as written the List is passed through; decoding each part expands it |
| ManifestProperties.NonIngressPassesThrough | ingress/ingress.go:92-116 | a List, a part the typed decoder rejects and a non-Ingress object are kept verbatim |
| ManifestProperties.ConvertedIngressLayout | ingress/ingress.go:119-131 | a converted Ingress yields the rewritten Ingress and then one fragment per middleware in the returned order |
| ManifestProperties.AbortedIngressLayout | ingress/ingress.go:119-124 | an aborted conversion yields only the encoding of the nil Ingress |
| ManifestProperties.NoIngressPassesThrough | ingress/ingress.go:80-116 | when no part holds an Ingress, the non-blank parts come back verbatim and in order |

## Left out

- File system: `Convert`'s directory walk, `os.ReadFile`, `os.MkdirAll` and `os.WriteFile` (ingress/ingress.go:40-67, 75-78, 134, 138-141). `ConvertFile` returns the text that would be written.
- YAML and Kubernetes codecs: `createUnstructured`, `IsList`, `NestedSlice`, `SetNestedSlice`, `yaml.Marshal`, `parseYaml`, `extensionsToNetworking` and `encodeYaml` are the fields of `Codec`. ingress/parser.go and the client libraries are not part of this model. The `NestedSlice` error after `IsList` has no case, because `IsList` already checks that `items` is a list.
- The two Ingress API versions are the same `Ingress` record. `toNetworking` stands for the protobuf conversion between them.
- The builder helpers and annotation key strings from files not shown are parameters. This includes the alternative annotation prefixes that `getStringValue` accepts.
- main.go: command-line wiring, flag checks, version printing and exit codes.
- Logging: `logUnsupported`, the deprecation notice for ReplacePath and the other `log.Printf` diagnostics. They do not affect the output.
- RuleTypes.ResolveRuleType: the error is the rejected value itself, not the formatted message `cannot use non-matcher rule`. That message is only logged.
- Names.IsNameChar: letters and digits are the ASCII ones. Go's `unicode.IsLetter` and `unicode.IsNumber` also accept the rest of Unicode.
- Sorting.SortInPlace: the model uses a stable insertion sort, while `sort.Slice` is not stable. Middlewares with equal names may come out in another order than the tool produces. The model proves sortedness and permutation only.
- Items.Item: list items are records with an API version, a kind and an opaque body. The type assertion on line 215, which panics on an item that is not a map, is not modelled.
- The nil annotation map of an Ingress without annotations is the empty map. A Go write into a nil map would panic, but no write happens without an annotation being present.
- Compiler.ConvertRules: the model follows the corrected behaviour of Finding 1 below. A rule without an `http` block contributes no path instead of panicking.
- Manifests.ExpandFileContent: the model follows the corrected behaviour of Finding 2 below. Each part is decoded on its own.
- Manifests.ExpandPartContent: the file loop `ExpandFileContent` passes the part itself as `source`, the corrected line 150 of Finding 2; the code as written passes the whole file, which `ExpandPartsAsWritten` models.
- Resources.GetStringValue: its body is in a file that is not part of this model. The model assumes that it behaves like Traefik v1's label helper, returning the default for an annotation that is absent or set to `""`. The lookup of the key under its alternative prefixes is the `lookup` parameter.

## Findings

| source | as written | input that shows it | evidently intended | confidence | as-written member | corrected member |
|---|---|---|---|---|---|---|
| ingress/ingress.go:298-299 | the path loop reads `rule.HTTP.Paths` without checking `rule.HTTP` | an Ingress of a traefik class with a valid rule type and a rule `host: example.com` with no `http` block (allowed by the Ingress API): nil-pointer panic | a rule without `http` has no paths to visit | medium, not executed | Compiler.VisitedPathsAsWritten, CompilerProperties.HostOnlyRule | CompilerProperties.RuleWithoutHttpAddsNothing |
| ingress/ingress.go:150 | every part's List-ness is decided by decoding the whole file `content` instead of `part` | a file with a Service document followed by a List holding an Ingress: the whole file decodes as its first document, so the List is never expanded | decode `part` | high, not executed | ManifestProperties.AsWrittenIgnoresPartLists, ManifestProperties.LaterListNotExpandedAsWritten | ManifestProperties.ListPartExpanded |
