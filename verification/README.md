# bfw, modelled in Dafny

bfw keeps ufw-style rules, policies, named sets and temporary bans, compiles
them into an nftables ruleset, imports foreign firewalls into the same rules,
and feeds the bans from a log detector and from a CrowdSec stream. This project
models those parts and proves what they are for.

To verify the project:

    dafny verify dfyconfig.toml

No proof needs the induction Dafny would find by itself: `--manual-lemma-induction`
may be added.

The modules, from the bottom up:

| module | content |
|---|---|
| `Bytes`, `Ranges`, `AddressSets`, `Rendering`, `Prefixes` | addresses as byte strings, masks, intervals with carry and borrow, set encoding and its textual form, prefix containment |
| `Rules`, `Normalization`, `Matching` | the rule model, its identity and normal form, and what a packet must be to match |
| `Netfilter` | packets, register expressions, chains with jump, return and base policy, and their evaluation |
| `RuleCompiler`, `BuiltinChains`, `Compiler` | what rules, built-in chains and whole rulesets compile to, and what those decide |
| `Verdicts` | the verdict of every packet told on the fields of the state, the settings and the header bytes |
| `LogLines`, `UserLogs`, `BaseLogs` | which log lines a packet leaves behind at each level |
| `CompiledState` | the compiler as the source writes it: an object whose chains, sets and counters grow by appending |
| `RuleList`, `RuleMerge`, `ListOutcomes`, `Shadow`, `UnifiedDiff` | the rule-list engine, merging, what both do to a list field by field, shadow detection, the diff |
| `Grammar`, `CanonicalCommand`, `CommandEcho`, `ParserResults` | the token parser, the canonical command, and their round trip |
| `CommandKinds`, `CommandExpiry` | the words before the action and the expiry clause |
| `FirewalldZones`, `FirewalldServices`, `IptablesImport`, `NftImport`, `NftRuleset` | the importers |
| `ZoneDispatch`, `IptablesReading`, `NftAcceptance`, `NftChains` | what the importers take and decide, told on what they are given |
| `FailureDetector`, `ThreatBans`, `CrowdSecPoller`, `Protection` | the failure detector, the ban store, the poller, and bans end to end |
| `FailureBans`, `BanUpdates`, `Decisions` | the same told on events, on the fields of bans and on the responses of the service |

Code that updates state in place is a class or a method with loops, proved equal
to a function; what the system promises is then proved about that function. The
last modules of each group state it once more without naming that function: on
fields, tokens, lines, expressions, events and responses.

## What the main results say

- **Compilation preserves meaning.** Every state that compiles yields a closed,
  acyclic jump graph in which every packet is decided, and the decision is the
  first of: the IPv6-off guard, the before chain, first match over the user
  rules, the policy. `Compile` succeeds under an exact condition and reaches
  such a state, and each part of that decision is told on the fields of the
  state and the bytes of the packet (`Verdicts.VerdictOnFields`). So are the log
  lines it prints (`BaseLogs.BasePrints`).
- **Bans dominate**, and `Protection.DecisionsDrop` joins the poller to the
  compiler: what the responses of the CrowdSec stream have given and not taken
  back is dropped.
- **Imports keep decisions**: firewalld zones, iptables chains and nft rules
  decide packets as their source did whenever the import is accepted, and which
  imports are accepted is stated on their input.
- **Echo and parse are inverse** up to one condition on the direction, exact in
  both directions of the equivalence.
- **The detector, the ban store, the rule list and the diff** refine simple
  specifications over all runs.

## Where the code does not do what one would expect

These are proved as exact conditions or as concrete inputs.

- A set that reaches the all-ones address can lose addresses, because the end of
  that interval is zero (`AddressSets.EncodingExactIff`, `AddressSets.TopBlockLost`).
- A non-empty port list without a range for a compiled protocol constrains
  nothing (`RuleCompiler.ReadingsAgreeIff`, `RuleCompiler.InconsistentRuleWidens`).
- Shadow detection does not look at ports of set endpoints (`Shadow.SetsSkipPorts`);
  a report is sound exactly when every protocol variant is taken (`Shadow.SupersetExact`).
- Two zones may bind `+` interface patterns that share a name; the layout check compares
  the patterns as text (`FirewalldZones.DisjointIff`, `FirewalldZones.EthZonesShare`).
- A bound default zone is imported with its own bindings only, while firewalld also sends it every
  packet no other zone binds (`ZoneDispatch.FirewalldIff`, `ZoneDispatch.DefaultZoneNarrowed`).
- A CrowdSec batch with a ban that runs out before the batch is applied is refused on every retry, and
  nothing is pulled any more (`Decisions.AppliesIff`, `Decisions.ExpiredBatchSticks`;
  `internal/cli/commands_protect.go:136-145`, `247-249`). A decision of less than a second can be such a ban from the start.
- An untracked packet taken by a rule that logs new connections only is logged under the
  name of a later rule, if one that logs takes it too (`UserLogs.OwnLine`).
- An nft prefix match replaces an earlier address instead of intersecting with it
  (`NftImport.ExactIffNarrowing`, `NftImport.OverwriteWidens`).
- The iptables import means to refuse other tables with policies that drop, but does not
  count INPUT, OUTPUT and FORWARD of the nat, raw and security tables as built-in
  (`IptablesImport.OthersInertIff` says when the check meets its purpose,
  `IptablesImport.SecurityPolicyIgnored` gives an imported dump; `internal/impexp/iptables.go:551`).
- The command of a rule does not always convey its direction. Besides route rules
  with a direction of out and both interfaces, `route allow OUT ...` gives an outgoing rule
  whose echo is incoming, and `allow in on A out B` gives a rule whose echo does
  not parse (`ParserResults.CapitalOut`, `ParserResults.SecondClauseLost`,
  `ParserResults.EchoExact`).
- The error for IPv4-mapped ban prefixes broader than IPv4 cannot occur, since
  such a prefix is no longer mapped once its host bits are cleared
  (`ThreatBans.CanonicalFails`; `internal/cli/commands_protect.go:307`).
- The warning that IPv6 policies are ignored cannot occur, since providing an
  IPv6 dump switches IPv6 on (`IptablesImport.ImportIptables`;
  `internal/impexp/iptables.go:125`).

## Words used

A packet has a family, interfaces, a layer-4 protocol, header bytes, a
connection state, a destination type and possibly a routing header. A rule is
*port-consistent* when each non-empty port list has a range for each protocol
the rule is compiled for; *active* when enabled and unexpired. The *identity* of a rule is
its match tuple. Times are integers; the address 255.255.255.255 and its IPv6
counterpart are the *all-ones* addresses. Interval sets hold what lies between a
start element and the next end element, where an end of zero is the top.

## Model

| member | source | states |
|---|---|---|
| `AddressSets.AddOne` | internal/backend/nft/compile.go:1209-1219 | the byte-wise increment with carry adds one to the number the bytes stand for, modulo 256^n |
| `AddressSets.IncrVal` | internal/backend/nft/compile.go:1209-1219 | the increment written as a recursion on bytes is integer arithmetic modulo 256^n, so all-ones becomes zero |
| `AddressSets.DecIP` | internal/backend/nft/render.go:268-279 | the byte-wise decrement with borrow is the byte string whose increment is the argument |
| `AddressSets.DecrUndoesIncr` | internal/backend/nft/render.go:268-279 | decrement and increment are inverse on all byte strings, in both orders and at both ends of the range |
| `AddressSets.LastVal` | internal/backend/nft/compile.go:1190-1205 | the last address of a prefix is its first address plus the block size minus one |
| `AddressSets.IntervalOfNet` | internal/backend/nft/compile.go:571-583 | the half-open interval made of a prefix covers exactly the addresses the prefix contains, a zero end standing for the top |
| `AddressSets.WrapsAtAllOnes` | internal/backend/nft/compile.go:571-583 | an interval has a zero end exactly when its prefix contains the all-ones address |
| `Bytes.Compare` | internal/backend/nft/compile.go:598-618 | byte-wise comparison of equal-width strings is numeric comparison, in all three outcomes |
| `AddressSets.MergeIntervals` | internal/backend/nft/compile.go:598-618 | sorting and merging byte intervals in place of the list is the numeric merge of the same intervals, sorted by start |
| `Ranges.MergedIsSeparatedAndExact` | internal/backend/nft/compile.go:598-618 | without zero ends the merged list is strictly increasing, disjoint and non-adjacent, and denotes the same numbers |
| `Ranges.ExactIffNoClash` | internal/backend/nft/compile.go:577-618 | with a range up to the top the merge denotes the same numbers if and only if no earlier range reaches the start of the wrapping one and no range from zero collides with its zero end |
| `AddressSets.EncodingExactIff` | internal/backend/nft/compile.go:552-618 | on source lists: the emitted elements denote the listed prefixes if and only if the sorted intervals have no such clash |
| `AddressSets.TopBlockLost` | internal/backend/nft/compile.go:552-618 | for the list 254.0.0.0/8, 255.0.0.0/8: whatever elements are emitted, 255.0.0.0 is listed and not in the set |
| `AddressSets.IntervalsDenoteSources` | internal/backend/nft/compile.go:552-583 | the intervals made of a list cover exactly the addresses some listed prefix of that width contains |
| `AddressSets.CompileAddressSet` | internal/backend/nft/compile.go:552-594 | fails exactly when an element does not parse; otherwise the elements of each family are its listed prefixes as intervals, in some sorted order, merged |
| `AddressSets.EncodedExactly` | internal/backend/nft/compile.go:552-618 | below the all-ones address the emitted intervals are increasing, disjoint and non-adjacent, and an address is in the set exactly when some listed prefix contains it |
| `Bytes.MaskEqIsSamePrefix` | internal/backend/nft/compile.go:1131-1181 | two addresses agree under the CIDR mask exactly when they agree on their leading bits (section 3.1 of RFC 4632, section 2.3 of RFC 4291) |
| `Bytes.MaskVal` | internal/backend/nft/compile.go:1131-1181 | masking rounds an address down to a multiple of the block size |
| `Rendering.PrefixLen` | internal/backend/nft/render.go:221-266 | returns p exactly when [start, end) is the aligned block of prefix length p, for p >= 1 and blocks that end at the top; otherwise there is no such p |
| `Rendering.RenderRangeElem` | internal/backend/nft/render.go:194-217 | what is printed denotes the interval it was given, and every interval of a prefix prints as that prefix |
| `Rendering.BlockUnique` | internal/backend/nft/render.go:221-266 | an interval is the block of at most one prefix length |
| `Netfilter.RankedRuns` | internal/backend/nft/compile.go:194-224 | when every jump goes to an existing chain of lower rank, evaluation never runs out of stack and a deeper stack changes nothing |
| `Matching.IfaceTests` | internal/backend/nft/compile.go:1096-1119 | the interface compare accepts exactly the name, or for NAME+ exactly the names it prefixes, through the 16-byte padded register |
| `Matching.AddrTests` | internal/backend/nft/compile.go:1131-1181 | the masked payload compare accepts exactly the addresses the rule names |
| `Matching.EndpointTests` | internal/backend/nft/compile.go:804-831 | the expressions of an endpoint accept exactly set members or covered addresses of the packet family |
| `Matching.PortIntervalCovers` | internal/backend/nft/compile.go:1224-1230 | the big-endian interval of a port range holds exactly lo..hi, also when hi is 65535 and the end wraps |
| `Matching.PortSetHas` | internal/backend/nft/compile.go:844-892 | a multiport set holds a port exactly when some range does |
| `RuleCompiler.ProtoVariants` | internal/backend/nft/compile.go:1048-1090 | which protocol variants one rule compiles to, from one pass over both port lists |
| `RuleCompiler.RuleMatchTests` | internal/backend/nft/compile.go:756-800 | the expressions before the verdict are met exactly by packets of the family that satisfy the variant |
| `RuleCompiler.CompiledIffMatches` | internal/backend/nft/compile.go:833-850 | the compiled rule and the rule agree on a packet unless and only unless a variant whose non-empty port list has no range for its protocol accepts it |
| `RuleCompiler.ReadingsAgreeIff` | internal/backend/nft/compile.go:833-850 | for a compiling rule whose other conditions some packet meets: the compiled rule and the rule agree on every packet if and only if the rule is port-consistent |
| `RuleCompiler.InconsistentRuleWidens` | internal/backend/nft/compile.go:833-850 | a rule with a udp-only destination list and a tcp source range accepts tcp to any destination port |
| `RuleCompiler.VariantSettles` | internal/backend/nft/compile.go:622-672 | logging jump plus verdict rules of one variant decide a packet by the action exactly when it matches, whatever the logging chains hold |
| `RuleCompiler.LimitSettles` | internal/backend/nft/compile.go:676-740 | a limit rule rejects when its meter is exceeded and accepts otherwise, and decides nothing for packets it does not match |
| `RuleCompiler.VariantsDecide` | internal/backend/nft/compile.go:622-672 | tcp and udp variants together decide a packet once, as the rule |
| `Compiler.RulesSettle` | internal/backend/nft/compile.go:262-271 | compiling a family list appends to each user chain a run of rules that decides like the first active rule of that direction whose compiled match holds |
| `Compiler.RulesCompile` | internal/backend/nft/compile.go:622-672 | a list compiles exactly when every rule of it does: the exact error condition |
| `Compiler.ConsistentFirst` | internal/backend/nft/compile.go:833-850 | on port-consistent lists the compiled first match is the first match of the rules themselves |
| `Compiler.UserChainDecides` | internal/backend/nft/compile.go:622-672 | in the complete ruleset each user chain decides every packet as the first enabled, unexpired rule of the packet family whose compiled match holds, else returns |
| `Compiler.UserChainIsFirstMatch` | internal/backend/nft/compile.go:622-892 | the same for the rules own reading, when every rule is port-consistent |
| `BuiltinChains.BeforeSettles` | internal/backend/nft/compile.go:304-413 | each before chain decides as the first of its clauses in order: loopback, routing header 0 (section 3 of RFC 5095), bans, connection state, ICMP (section 4.3.1 of RFC 4890), DHCP, non-local destinations, multicast |
| `BuiltinChains.AfterSettles` | internal/backend/nft/compile.go:418-442 | the after chain either falls through or gives the policy verdict |
| `BuiltinChains.TrackSettles` | internal/backend/nft/compile.go:231-239 | the track chain never decides against the policy |
| `BuiltinChains.RejectSettles` | internal/backend/nft/compile.go:228-230 | the reject chain rejects exactly under the reject policy |
| `BuiltinChains.SkipSettles` | internal/backend/nft/compile.go:242-242 | skip-to-policy always gives the policy verdict |
| `BuiltinChains.LoggingHarmless` | internal/backend/nft/compile.go:446-522 | no logging chain of any level ever gives a verdict |
| `Compiler.CompiledBaseVerdict` | internal/backend/nft/compile.go:164-259 | for every loaded state: the verdict of a base chain is the first decision among the IPv6-off guard, the before chain and the first active rule whose compiled match holds, else the policy verdict; nothing behind the user chain changes it |
| `Compiler.BaseVerdict` | internal/backend/nft/compile.go:164-259 | the same with first match over the rules themselves, when every rule is port-consistent |
| `Compiler.JumpGraph` | internal/backend/nft/compile.go:194-224 | in every loaded ruleset all jump targets exist and the jump graph is acyclic, three deep |
| `Compiler.EveryPacketDecided` | internal/backend/nft/compile.go:164-279 | so evaluation ends with a decision for every packet, and depth three is enough |
| `Compiler.HeadDecides` | internal/backend/nft/compile.go:183-201 | what the guard and the before chain decide is final for any user rules, even those that are not port-consistent |
| `Compiler.BanDominates` | internal/backend/nft/compile.go:281-302 | a packet from an unexpired ban is dropped on forward, and on input unless it arrives on lo, whatever connection state, rules, policy, logging or IPv6 setting |
| `Compiler.NamedSetMembership` | internal/backend/nft/compile.go:527-535 | a rule naming a set tests membership of its listed prefixes, below the all-ones address |
| `Verdicts.PoliciesInForce` | internal/backend/nft/compile.go:115-170 | on the fields of the state and the settings: each hook has the recognised word given for it, else its own stored policy, an unrecognised word changes nothing; likewise the IPv6 switch |
| `Verdicts.HeadsMean` | internal/backend/nft/compile.go:164-201 | what a packet meets before the user rules, told on its header bytes: the IPv6-off guard and the clauses of each before chain with their ICMP types, ports and destinations |
| `Verdicts.ActionsMean` | internal/backend/nft/compile.go:654-668 | the verdict of each action of a rule, limit by its meter included |
| `Verdicts.ProtocolNumbers` | internal/backend/nft/compile.go:1048-1090 | the number a packet carries for each protocol name |
| `Verdicts.VerdictOnFields` | internal/backend/nft/compile.go:108-279 | in the ruleset of a state every packet gets: the decision of its hook head, else the action of the first active rule of its family whose compiled match holds, else the policy in force for that hook |
| `Verdicts.BansMean` | internal/backend/nft/compile.go:281-302 | a source is banned exactly when an unexpired listed prefix of the state contains it, below the all-ones address |
| `Verdicts.CompilesMean` | internal/backend/nft/compile.go:756-800 | which rules do not compile, told on protocol, ICMP type, ports and family |
| `RuleCompiler.MetersApart` | internal/backend/nft/compile.go:676-704 | limit rules share a meter exactly when they have one family and one ID, or IDs that differ by the 6 of the IPv6 name |
| `RuleCompiler.MeterCounts` | internal/backend/nft/compile.go:676-740 | the meter counts the source address with the destination port, or with zeros for protocols without ports |
| `UserLogs.UserLines` | internal/backend/nft/compile.go:622-672 | in every loaded state: the log lines a packet gets in the user chain are those of the first rule that takes it, through the logging chain of the hook, and the limit line if its meter rejects it |
| `UserLogs.OwnLine` | internal/backend/nft/compile.go:636-653 | the line is the rule own one if the rule speaks about the packet; of a rule that logs new connections only, any other packet gets the line of the next rule that takes it and speaks |
| `UserLogs.LogDenyPrints` | internal/backend/nft/compile.go:485-503 | what the deny chain prints at each level, for invalid and for other packets |
| `UserLogs.LogAllowPrints` | internal/backend/nft/compile.go:485-503 | what the allow chain prints at each level |
| `BaseLogs.BasePrints` | internal/backend/nft/compile.go:164-523 | all log lines of a packet at a hook, in every loaded state: nothing behind the IPv6-off guard; otherwise the audit of the level, and then the refusal before the user rules, or the lines of the user rules, or the line of the policy unless the after chain takes the packet |
| `BaseLogs.OffIsSilent` | internal/backend/nft/compile.go:446-459 | level off prints nothing, whatever the rules say |
| `CompiledState.Compiled.AddRule` | internal/backend/nft/compile.go:99-105 | one rule is appended to one chain, created on first use, and nothing else changes |
| `CompiledState.Compiled.PortExprs` | internal/backend/nft/compile.go:833-892 | emits the expressions and the anonymous set of a port list and takes the next set number only for a multiport list |
| `CompiledState.Compiled.RuleMatchExprs` | internal/backend/nft/compile.go:756-800 | emits the match of a variant with its sets, or fails exactly when the specification does |
| `CompiledState.Compiled.CompileLimit` | internal/backend/nft/compile.go:676-740 | appends the meter rule and the accept rule and registers one meter per rule and family |
| `CompiledState.Compiled.CompileRule` | internal/backend/nft/compile.go:622-672 | all variants of an active rule land in its user and logging chains; inactive rules leave everything unchanged |
| `CompiledState.Compiled.CompileList` | internal/backend/nft/compile.go:262-271 | the loop over a family list refines the specification compiler chain by chain and set by set |
| `CompiledState.Compiled.CompileBase` | internal/backend/nft/compile.go:164-201 | one base chain with its guard and its seven jumps in order, and its kernel policy |
| `CompiledState.Compiled.CompileBefore` | internal/backend/nft/compile.go:304-413 | the interleaved appends leave exactly the before chains, and only those and the not-local chain |
| `CompiledState.Compiled.CompileAfter` | internal/backend/nft/compile.go:418-442 | the after chains, and nothing else |
| `CompiledState.Compiled.CompilePolicies` | internal/backend/nft/compile.go:227-243 | reject, track and skip-to-policy chains for the three policies, and nothing else |
| `CompiledState.Compiled.CompileLimitChains` | internal/backend/nft/compile.go:244-252 | the two limit chains, and nothing else |
| `CompiledState.Compiled.CompileLogging` | internal/backend/nft/compile.go:446-522 | the logging chains of a level, and nothing else |
| `CompiledState.Compiled.CompileThreatBans` | internal/backend/nft/compile.go:538-550 | fails exactly on an unparsable unexpired ban; otherwise both ban sets encode the unexpired bans |
| `CompiledState.Compiled.CompileNamedSets` | internal/backend/nft/compile.go:527-535 | fails exactly on an unparsable element; otherwise each set not overwritten by a later one of the same kernel name holds both halves |
| `CompiledState.Compiled.CompileNat` | internal/backend/nft/compile.go:895-985 | NAT compiles exactly when every NAT rule has a known protocol and kind and a destination of its own family |
| `CompiledState.Compiled.Compile` | internal/backend/nft/compile.go:108-279 | fails exactly when a ban, set, rule or NAT rule does not compile; under panic only base chains that drop; otherwise kernel policies and the verdict of every packet are those the state and the settings say, hook by hook and field by field |
| `Prefixes.NestedOrDisjoint` | internal/impexp/firewalld.go:611-615 | two prefixes that share an address are nested |
| `Prefixes.PrefixSound` | internal/cli/commands_ext.go:527-532 | containment of prefixes is containment of their addresses |
| `Normalization.Normalize` | internal/rule/rule.go:231-256 | gives the normal form and reports a change exactly when there is one |
| `Normalization.NormalTwice` | internal/rule/rule.go:231-287 | normalising is idempotent |
| `Normalization.NormalMatches` | internal/rule/rule.go:231-287 | normalising changes no packet match |
| `Normalization.CanonUnique` | internal/rule/rule.go:259-290 | two ends have one canonical address exactly when they speak of the same addresses |
| `Normalization.NormalForm` | internal/rule/rule.go:231-290 | a normal rule has its ranges in order of port and protocol, wildcards as any, prefixes without host bits and hosts for full prefixes, and is otherwise unchanged |
| `RuleList.SetRuleEngine` | internal/cli/commands_rules.go:362-433 | the one-pass engine is the find-and-replace specification on lists with distinct identities; skip and not-found leave any list alone |
| `RuleList.KeysAfter` | internal/cli/commands_rules.go:362-433 | only the identity of the command comes or goes, and identities stay distinct |
| `ListOutcomes.IdentityMeans` | internal/rule/rule.go:125-156 | two rules have one identity exactly when these fields agree: all but ID, action, log, comment, expiry and the disabled flag |
| `ListOutcomes.OnStored` | internal/cli/commands_rules.go:362-433 | with a rule of the identity stored at i: deleted if the command names its action, log and comment; skipped by an insert or if action, log and comment are equal; else replaced at i |
| `ListOutcomes.OnNew` | internal/cli/commands_rules.go:362-433 | without one: not found, inserted at the least place from the one asked for that splits no application group, or appended |
| `ListOutcomes.AddTakesHold` | internal/cli/commands_rules.go:362-433 | after a command that neither removes nor inserts the rule of its identity has its action, log and comment; it is skipped, updated or added exactly when a stored rule is equal, differs, or is missing |
| `ListOutcomes.DeleteTakesHold` | internal/cli/commands_rules.go:362-433 | a deletion takes the named rule away and no other, or nothing |
| `ListOutcomes.AppDeleteTakesHold` | internal/cli/commands_rules.go:301-355 | deleting an application takes away exactly its rules, told on their fields, if all have the action and log of the command |
| `RuleList.RunKeepsDistinct` | internal/cli/commands_rules.go:362-433 | identities stay pairwise distinct over every run of commands |
| `RuleList.InsertPosition` | internal/cli/commands_rules.go:362-433 | an insert lands at the least index from the asked one that splits no app group, or at the end |
| `RuleList.GroupsStayWhole` | internal/cli/commands_rules.go:362-433 | neighbours of one app group stay neighbours after any insert |
| `RuleList.UpdateKeepsPositions` | internal/cli/commands_rules.go:362-433 | an update replaces one rule and moves none |
| `RuleList.AddThenDelete` | internal/cli/commands_rules.go:362-433 | adding or inserting a new rule and deleting it restores the list |
| `RuleList.ApplyHalf` | internal/cli/commands_rules.go:305-357 | one family of a command: position errors, plain rules through the engine, app deletes over the whole group |
| `RuleList.AppDeleteIff` | internal/cli/commands_rules.go:305-357 | an app delete reports success exactly when every rule of the group has the action and log of the command, and then removes exactly the group |
| `RuleMerge.MergeRules` | internal/impexp/impexp.go:137-181 | replace on equal identity, else append under an unused ID |
| `ListOutcomes.MergesOne` | internal/impexp/impexp.go:137-181 | one imported rule: the stored rule of its identity takes its action, log and comment and keeps place, ID, expiry and disabled flag; without one it is appended, under a fresh ID if its own is empty or used |
| `ListOutcomes.MergeTakesHold` | internal/impexp/impexp.go:137-172 | after the whole merge every imported rule has its effect and all other stored rules are as they were |
| `RuleMerge.MergeKeys` | internal/impexp/impexp.go:137-172 | the merged list has the identities of both and keeps them distinct |
| `RuleMerge.MergeIntoEmpty` | internal/impexp/impexp.go:137-172 | rules with distinct identities arrive in an empty list in order, changed in ID at most |
| `Shadow.SupersetSound` | internal/cli/commands_ext.go:536-620 | a shadowed rule, as compiled, matches no packet the shadowing rule does not, when the latter takes every protocol variant and its ports |
| `Shadow.ReportedIff` | internal/cli/commands_ext.go:536-620 | when a pair is reported, told on fields: one family and direction, each condition of the earlier rule absent or repeated, and the later rule addresses and port ranges inside the earlier ones, or both ends on one set |
| `Shadow.TakenIff` | internal/cli/commands_ext.go:536-620 | for a reported pair and a variant some packet meets: the shadowing rule matches every packet of it if and only if it takes the protocol and, in union, the ports |
| `Shadow.MetIff` | internal/backend/nft/compile.go:756-800 | some packet meets a variant if and only if its interface names fit a kernel name, both endpoints leave an address of one family and its port lists leave a port |
| `Shadow.SupersetExact` | internal/cli/commands_ext.go:536-620 | for the whole rule: a reported pair is one of containment if and only if every variant the rule leaves something to meet is taken |
| `Shadow.CoveredTakes` | internal/cli/commands_ext.go:536-579 | a port-consistent rule whose port lists the test covers has every variant taken |
| `Shadow.CheckShadowed` | internal/cli/commands_ext.go:667-686 | the loop warns about exactly the rules some earlier active rule covers, each with the first such rule |
| `Shadow.DeleteShadowedSetFree` | internal/cli/commands_ext.go:667-686 | deleting a reported set-free, port-consistent rule changes no decision of its list |
| `Shadow.DeleteShadowed` | internal/cli/commands_ext.go:667-686 | deleting a reported rule whose variants are all taken changes no decision of its list |
| `Shadow.ReportInFamily` | internal/cli/status.go:19-31 | a report over the IPv4 rules followed by the IPv6 rules is a report within one of the two lists |
| `Shadow.DeleteReported` | internal/cli/commands_ext.go:667-686 | so deleting a reported rule of the combined list changes no decision of its family |
| `Shadow.SetsSkipPorts` | internal/cli/commands_ext.go:537-540 | a rule on a set and every tcp port is reported as shadowed by one on the same set and port 22; a packet to port 80 tells them apart |
| `Shadow.SweepExpired` | internal/cli/commands_rules.go:517-531 | keeps exactly the unexpired rules in order |
| `Shadow.SweepUnobservable` | internal/cli/commands_rules.go:517-531 | sweeping changes no decision now or later |
| `UnifiedDiff.FillTable` | internal/cli/commands_ext.go:853-870 | every entry of the table is the longest-common-subsequence length of its two suffixes |
| `UnifiedDiff.LcsBounds` | internal/cli/commands_ext.go:853-870 | no common subsequence is longer than that length |
| `UnifiedDiff.LcsAttained` | internal/cli/commands_ext.go:853-870 | some common subsequence has that length |
| `UnifiedDiff.EditScript` | internal/cli/commands_ext.go:875-895 | the script projects to both inputs with the stated number of changed lines, and lists what goes before what comes |
| `UnifiedDiff.MinimalScript` | internal/cli/commands_ext.go:875-895 | no script between the inputs changes fewer lines |
| `UnifiedDiff.Hunks` | internal/cli/commands_ext.go:897-963 | hunks are ordered and apart, show exactly the lines within three of a change, and their headers and lines applied to the old text give the new |
| `UnifiedDiff.UnifiedDiff` | internal/cli/commands_ext.go:853-963 | end to end: a minimal script; hunks that are exactly its stretches within three lines of a change, with their line numbers and counts, and that patch a into b; none for equal inputs |
| `Grammar.ParseRuleArgs` | internal/cli/parser.go:81-549 | the token rewriting is the composition of its passes, with the same result on every token list; the rows below say what that result is |
| `Grammar.ParseClauses` | internal/cli/parser.go:333-428 | the key/value loop, token by token |
| `Grammar.FoldSetTokens` | internal/cli/parser.go:278-286 | set references are folded in place as the recursive reading folds them |
| `CanonicalCommand.GetCommand` | internal/cli/status.go:140-229 | the words appended one after the other are the canonical command, short or full, applications included |
| `CanonicalCommand.LoopIsApply` | internal/cli/parser.go:333-428 | on clause tokens the loop applies one clause after the other |
| `CommandEcho.EchoParses` | internal/cli/status.go:140-229 | for every rule of the shape the parser returns, with names that are no grammar words, the echo parses to that rule with the direction the command conveys |
| `CommandEcho.EchoRefused` | internal/cli/parser.go:215-245 | the echo of a rule that is not routed and has a second interface or a bare direction behind the first does not parse |
| `ParserResults.ParserShapes` | internal/cli/parser.go:262-549 | every rule the parser returns satisfies the protocol, port, address, family and direction conditions the round trip needs |
| `ParserResults.ShapedMeans` | internal/cli/parser.go:262-549 | those conditions one by one: which protocols, ports, addresses, ICMP types, interfaces and directions a rule may combine, and which families a command is for |
| `CommandKinds.DeleteReads` | internal/cli/parser.go:149-196 | "delete" before an action, also behind "route" and "rule" and in any case: the same rule, or error, as without the word, as a deletion |
| `CommandKinds.PrependReads` | internal/cli/parser.go:149-196 | the same for "prepend" |
| `CommandKinds.InsertReads` | internal/cli/parser.go:149-196 | "insert X" before an action: accepted exactly when X is a number and the rest is accepted, as an insert of the same rule at that number, numbers beyond the machine int as the largest one |
| `CommandKinds.DeleteNumber` | internal/cli/parser.go:149-162 | "delete N" names the rule numbered N and reads no further; a number beyond the machine int is refused |
| `CommandKinds.RouteDeleteNumber` | internal/cli/parser.go:97-105 | "route delete N" is refused |
| `CommandKinds.OnlyTheseForms` | internal/cli/parser.go:149-203 | every accepted command line opens with an action, or with one of the three words and what it needs before an action or number |
| `CommandKinds.EchoOperations` | internal/cli/status.go:140-229 | the echo of a rule behind each of these words parses to that operation on the rule |
| `CommandExpiry.ExpiresReads` | internal/cli/parser.go:262-275 | "expires D" behind an accepted command: the same operation on the same rule, which ends D seconds from now; without it a rule never ends |
| `ParserResults.EchoExact` | internal/rule/rule.go:125-169 | parsing the echo gives a rule that matches exactly if and only if the rule has the direction its command conveys |
| `ParserResults.EchoOfParsed` | internal/cli/status.go:140-229 | for every parsed command line: echo and parse give the same rule and family again, under the same condition |
| `ParserResults.CapitalOut` | internal/cli/parser.go:129-213 | "route allow OUT ..." is accepted as outgoing and its echo comes back as incoming |
| `ParserResults.SecondClauseLost` | internal/cli/parser.go:215-228 | "allow in on I out O" is accepted with both interfaces and its echo is refused |
| `FirewalldZones.FwLoader.Emit` | internal/impexp/firewalld.go:1198-1286 | one template across the bindings of its zone appends exactly its rules, or fails exactly on a conflict |
| `FirewalldZones.FwLoader.EmitWithDst` | internal/impexp/firewalld.go:1392-1413 | a service template is emitted once, or once per family with a destination |
| `FirewalldZones.SplitExact` | internal/impexp/firewalld.go:1392-1413 | the templates of a service hold exactly at its destinations; a family without one is closed once the other has one |
| `FirewalldZones.FwLoader.ActiveZones` | internal/impexp/firewalld.go:1035-1059 | the loop refines the functional choice of zones; `ZoneDispatch.AcceptedIff` and `ZoneDispatch.ImportIsDispatch` say what that choice is |
| `FirewalldZones.FwLoader.EmitZones` | internal/impexp/firewalld.go:1035-1071 | succeeds exactly when the functional import does and stages its two lists, zone by zone |
| `FirewalldZones.FwLoader.CheckZoneOverlap` | internal/impexp/firewalld.go:1078-1131 | accepts exactly the layouts without overlapping bindings |
| `FirewalldZones.StagedExact` | internal/impexp/firewalld.go:1198-1286 | a staged rule matches exactly the packets its binding captures and its template matches |
| `FirewalldZones.AcceptedDisjoint` | internal/impexp/firewalld.go:1078-1131 | in an accepted layout no packet belongs to two zones, with any set contents, if no two zones bind patterns that share an interface name |
| `FirewalldZones.MeetingPatternsShare` | internal/impexp/firewalld.go:1094-1131 | two zones that bind patterns with a shared interface name share a packet: the check compares patterns as text |
| `FirewalldZones.DisjointIff` | internal/impexp/firewalld.go:1078-1131 | an accepted layout puts every packet in at most one zone if and only if no two zones bind patterns that share an interface name |
| `FirewalldZones.EthZonesShare` | internal/impexp/firewalld.go:1096-1100 | eth+ in one zone and eth0 in another is imported, and a packet from eth0 belongs to both |
| `FirewalldZones.FlatIsDispatch` | internal/impexp/firewalld.go:1035-1071 | for packets of at most one zone, first match over the flat rules is dispatch to that zone and its elements in order |
| `ZoneDispatch.AcceptedIff` | internal/impexp/firewalld.go:1035-1071 | accepted exactly when: with a bound zone, no unbound default zone, bindings apart and combining with their elements; without one, at most one default zone whose elements have a family |
| `ZoneDispatch.ImportIsDispatch` | internal/impexp/firewalld.go:1035-1131 | on the zones as given: for every accepted import without shared interface names, a packet some zone binds is decided by the elements of that zone, and where no zone is bound by those of the default zone; otherwise it is left to the policy |
| `ZoneDispatch.FirewalldIff` | internal/impexp/firewalld.go:1035-1058 | so the import decides as firewalld does if and only if not: some zone is bound, none to the packet, and the elements of the default zone decide it |
| `ZoneDispatch.DefaultZoneNarrowed` | internal/impexp/firewalld.go:1035-1058 | the bound default zone "public" that allows everything is imported, and a packet from another interface, which firewalld accepts, is left to the policy |
| `ZoneDispatch.TemplateMeans` | internal/impexp/firewalld.go:1178-1194 | what an element matches, on its fields |
| `ZoneDispatch.StagedFields` | internal/impexp/firewalld.go:1253-1284 | what a staged rule keeps of its element |
| `ZoneDispatch.OverlapMeans` | internal/impexp/firewalld.go:1094-1131 | which bindings clash: the same interface, an interface with a source, or sources of one family that share an address or name a set |
| `ZoneDispatch.ConflictMeans` | internal/impexp/firewalld.go:1198-1252 | which bindings and elements do not combine, and which give no rule because their sources share no address |
| `FirewalldServices.Resolver.ResolveService` | internal/impexp/firewalld.go:746-787 | terminates on every table and restores the stack whether it succeeds or not |
| `FirewalldServices.ResolveIff` | internal/impexp/firewalld.go:746-787 | from any stack: success exactly when every reachable include is defined, none repeats on its path and destinations agree, with those destinations |
| `FirewalldServices.ServiceResolves` | internal/impexp/firewalld.go:791-813 | from the empty stack: reachable includes are defined and acyclic, and destinations agree per family |
| `FirewalldServices.ResolvedLists` | internal/impexp/firewalld.go:746-787 | ports and protocols are those of the include tree in preorder |
| `FirewalldServices.ResolvedOffers` | internal/impexp/firewalld.go:746-787 | a resolved service carries a port, protocol or module exactly when some definition within its reach lists it |
| `IptablesImport.SaveTable.AddLine` | internal/impexp/iptables.go:255-309 | declarations, -A and -I with its position, against a functional table; out-of-range positions and repeated declarations fail |
| `IptablesImport.ParseSave` | internal/impexp/iptables.go:228-326 | a dump is read line by line into its tables, with -A and -I applied in order; exactly the malformed dumps fail |
| `IptablesReading.LineMeans` | internal/impexp/iptables.go:255-309 | an inserted rule has the number asked for and an appended one the last, with the chain before once it is taken out; a declaration sets one policy once; other chains stay |
| `IptablesReading.SectionRead` | internal/impexp/iptables.go:228-326 | a further table section adds its table with its lines applied in order, unless its name is taken or a line is refused |
| `IptablesReading.SectionsOnly` | internal/impexp/iptables.go:228-326 | every readable dump is empty or a readable dump with one more section |
| `IptablesImport.ImportStream` | internal/impexp/iptables.go:413-547 | succeeds exactly when the other tables are harmless, no built-in chain has a bad policy and every built-in chain converts; then gives the chains, stated policies and rules |
| `IptablesReading.TakenIff` | internal/impexp/iptables.go:413-547 | a dump is taken exactly when it reads, other tables have no rules and no checked policy but accept, and the built-in chains of the filter table have known policies and rules that can be written |
| `IptablesReading.ConvertsIff` | internal/impexp/iptables.go:465-537 | a chain converts exactly when up to the first unconditional return every rule is supported and connection tracking comes before the rules with a verdict |
| `IptablesReading.PassedIff` | internal/impexp/iptables.go:432-446 | the check of another table, on its chains and policies |
| `IptablesImport.InertIff` | internal/impexp/iptables.go:432-446 | a table of the kernel that the check lets through has no effect if and only if none of its unchecked chains (INPUT and OUTPUT of nat, OUTPUT of raw, all of security) declares a policy other than accept |
| `IptablesImport.OthersInertIff` | internal/impexp/iptables.go:413-447 | the same for all other tables of every stream that is let through |
| `IptablesImport.SecurityPolicyIgnored` | internal/impexp/iptables.go:551-559 | a dump with a filter table and a security table whose INPUT policy drops is imported, although that table has an effect |
| `IptablesImport.ChainConverts` | internal/impexp/iptables.go:505-537 | first match over the converted rules, then the policy, is what the source chain decides, RETURN included, for packets that are not related or established |
| `IptablesImport.StreamDecides` | internal/impexp/iptables.go:413-540 | the rules of all built-in chains together decide each hook as its own chain does |
| `IptablesImport.AppendPolicyCatchall` | internal/impexp/iptables.go:1170-1199 | appends the catchall unless the last rule of its direction is exactly that rule |
| `IptablesImport.MergePolicy` | internal/impexp/iptables.go:129-173 | the stricter policy becomes the base and the laxer family gets its catchall |
| `IptablesReading.PolicyMeans` | internal/impexp/iptables.go:107-175 | the verdict behind the rules of a family is that of the policy the dump declares for the chain, else of the stored one |
| `IptablesReading.BaseMeans` | internal/impexp/iptables.go:129-173 | the global policy is one of the families and neither is stricter |
| `IptablesReading.CatchallOnce` | internal/impexp/iptables.go:1170-1199 | a second catchall is never added |
| `IptablesReading.ConvertedFields` | internal/impexp/iptables.go:505-537 | what a converted rule keeps of its line |
| `IptablesImport.PolicyKept` | internal/impexp/iptables.go:107-175 | after all three hooks are merged, each family decides every packet by its rules and then its own policy |
| `IptablesImport.DumpsKeepDecisions` | internal/impexp/iptables.go:107-175 | the same for given chains, order and stated policies |
| `IptablesImport.ImportKeepsDecisions` | internal/impexp/iptables.go:46-175 | from the lines of the dumps, with distinct identities, into an empty state: each family decides as its source chain after -A and -I, or as before where it was not provided |
| `IptablesImport.ImportIptables` | internal/impexp/iptables.go:46-175 | into any state: fails exactly when a provided stream does or both give nothing; otherwise the merged lists and policies, IPv6 on when its dump is given |
| `NftImport.ConvertRule` | internal/impexp/nftjson.go:396-449 | the accumulator object, expression by expression, is the functional conversion |
| `NftAcceptance.TakenIff` | internal/impexp/nftjson.go:396-792 | a list is taken exactly when its last expression is a verdict and each expression may follow those before it: nothing behind a verdict, one family, one protocol, one name per interface, one range per port, one ICMP type, and no other host behind an address; it gives one rule for each family it does not shut out, with its verdict, log and comment |
| `NftImport.ConversionExact` | internal/impexp/nftjson.go:396-792 | where the last address of each endpoint lies inside the earlier ones, the emitted rule of a family matches exactly the packets satisfying every expression |
| `NftImport.ExactIffNarrowing` | internal/impexp/nftjson.go:728-763 | for an accepted list some packet satisfies, conversion is exact on all packets if and only if the last address of each endpoint lies inside every earlier one |
| `NftImport.WidenedBy` | internal/impexp/nftjson.go:746-763 | otherwise some packet of the source, sent from or to another address, meets the rule and not the source |
| `NftImport.OverwriteWidens` | internal/impexp/nftjson.go:746-763 | source 10.0.0.0/16 then source 10.0.0.0/8 is accepted, and its rule matches a packet from 10.1.0.0 that the source excludes |
| `NftRuleset.Catalog` | internal/impexp/nftjson.go:165-265 | accepts exactly the representable sets of base chains and gives each hook its policy |
| `NftChains.RepresentableIff` | internal/impexp/nftjson.go:165-265 | the chains are representable exactly when their policies are known, no two of a hook see one family, and each hook treats both families alike |
| `NftChains.PolicyMeans` | internal/impexp/nftjson.go:234-265 | the policy a hook gets drops exactly where the chains drop |
| `NftRuleset.HookPolicies` | internal/impexp/nftjson.go:234-265 | each family and hook gets the policy of its only covering chain, or accept |
| `NftRuleset.ImportRules` | internal/impexp/nftjson.go:284-308 | converts exactly when every rule does and merges rule by rule |
| `NftRuleset.ImportDecides` | internal/impexp/nftjson.go:149-320 | with distinct identities, each family and hook decides as the source ruleset: first selected rule, else the covering policy or implicit accept |
| `ThreatBans.CanonicalFails` | internal/cli/commands_protect.go:303-319 | canonicalisation fails exactly on what is neither a host nor a prefix; the error for mapped prefixes broader than IPv4 cannot occur |
| `ThreatBans.CanonicalIdempotent` | internal/cli/commands_protect.go:303-319 | a canonical address is its own canonical form |
| `ThreatBans.CanonicalMeaning` | internal/cli/commands_protect.go:303-319 | it contains the same addresses, or for a mapped prefix the IPv4 addresses mapped |
| `ThreatBans.BanStore.ApplyThreatUpdate` | internal/cli/commands_protect.go:236-301 | an error leaves the store alone; otherwise the batch is applied and the result tells whether anything changed |
| `ThreatBans.UpdateKeepsUnique` | internal/cli/commands_protect.go:236-301 | ban identity stays unique across every accepted batch |
| `BanUpdates.AcceptedIff` | internal/cli/commands_protect.go:236-301 | a batch is accepted exactly when every addition is an unexpired host or prefix, with a positive id from the service or with a jail and no id, and a delta deletes positive ids only |
| `BanUpdates.MembersAfter` | internal/cli/commands_protect.go:236-301 | a ban is stored afterwards exactly when it was and is not replaced, deleted or wiped, or when it is the last addition of its identity and is not deleted |
| `ThreatBans.DeletesWin` | internal/cli/commands_protect.go:236-301 | a deleted decision is gone even when the same delta adds it |
| `ThreatBans.UpdateFeedsTable` | internal/cli/commands_protect.go:236-301 | the stored decisions become those the batch gives: replaced by a snapshot, changed by a delta |
| `ThreatBans.UpdateKeepsLocal` | internal/cli/commands_protect.go:236-301 | local bans survive every batch, snapshots included, unless replaced by the same source and address |
| `ThreatBans.DecisionsKeepLocals` | internal/cli/commands_protect.go:236-301 | a batch of decisions leaves the local bans as they were |
| `ThreatBans.ReapplyDelta` | internal/cli/commands_protect.go:236-301 | reapplying a delta at the same time reports no change |
| `ThreatBans.ReapplySnapshot` | internal/cli/commands_protect.go:236-301 | so does reapplying a snapshot of decisions |
| `CrowdSecPoller.CrowdSecUpdate` | internal/cli/commands_protect.go:151-186 | the loops refine the functional conversion of a response, including its rejection as a whole |
| `CrowdSecPoller.StepKeepsInv` | internal/cli/commands_protect.go:109-149 | failed and successful pulls, rejected and failed commits, sweeps and local bans all keep the invariant of the poller |
| `Decisions.BatchMeans` | internal/cli/commands_protect.go:151-186 | on the response: the additions are exactly the ban decisions of positive duration, in order, each with its id, scenario, source, end in whole seconds and addresses; refused exactly for an unreadable ban or, outside startup, a deletion without a positive id |
| `Decisions.RecordComplete` | internal/cli/commands_protect.go:109-149 | the record of responses has every response of the run, in order |
| `Decisions.PollerSafety` | internal/cli/commands_protect.go:109-301 | on the responses: in every run, with nothing pending and startup over, every response since some snapshot was accepted, each unexpired stored decision stands for a decision in force, and each decision in force that still lasts is stored |
| `Decisions.AppliesIff` | internal/cli/commands_protect.go:136-145 | an attempt that meets no obstacle clears the pending batch if and only if every ban of the last response still lasts |
| `Decisions.ExpiredBatchSticks` | internal/cli/commands_protect.go:136-145 | once a ban of the pending batch has run out, no run ever gets rid of the batch, and nothing is pulled again |
| `CrowdSecPoller.LocalBansStay` | internal/cli/commands_protect.go:216-301 | in every run an unexpired local ban is never removed |
| `CrowdSecPoller.Poller.Iterate` | internal/cli/commands_protect.go:109-149 | one turn of the loop is a pull when nothing is pending, then an attempt to apply, which may be blocked, refused or go through |
| `Protection.DecisionsDrop` | internal/cli/commands_protect.go:109-301 | end to end: a decision in force that still lasts drops the packets its value speaks of in the ruleset compiled from the stored bans |
| `FailureDetector.Detector.Observe` | internal/protect/detector.go:71-106 | on non-decreasing times every event gives exactly the bans of a detector that keeps the whole history, and stored windows stay sorted, non-empty and shorter than the limit |
| `FailureDetector.Detector.Prune` | internal/protect/detector.go:108-131 | pruning keeps the refinement: nobody can observe it |
| `FailureDetector.CountOne` | internal/protect/detector.go:80-103 | a jail bans exactly when the failures since its last ban in the closed window reach the limit |
| `FailureBans.BansMean` | internal/protect/detector.go:71-106 | over every run of events: an event bans an address in a jail exactly when it is a failure there and, with the failures since the last ban of that address in that jail, reaches the retries within the find time; the ban ends after the ban time |

## Left out

- Textual parsing and printing of addresses, ports, JSON, XML and iptables option tokens: the model starts from decoded values, with malformed text as its own value where the code handles it.
- IPv4-mapped IPv6 text in rules and sets: canonical forms are modelled for ban addresses only.
- Netlink, processes, HTTP, files, locks and prompts: applying and saving are an arbitrary success or failure.
- NAT tables, before and after fragments: not part of the filter verdict; of NAT rules only what decides whether they compile is modelled.
- Kernel meters and rate limits: arbitrary oracles of the packet and the meter; the log lines are stated where every rate limit lets through or none does.
- The bits of a connection state are read in the byte order of a little-endian host.
- Random identifiers are parameters. Where an identity of rules matters it is the match tuple, except for meters.
- Set numbers: the model numbers anonymous sets only; expressions here refer to ban sets, named sets and meters by name, and their numbers are not modelled.
- Named sets `a6` and `a` share a kernel name for one half; the model keeps the clash and promises only the later set.
- Application profiles and service names: `Dapp` and `Sapp` are opaque labels; the canonical command prints them, the parser model reads no application and no service name, and rules are not expanded.
- Grammar tokens: numbers, port lists, addresses and durations are tokens of their own, so an interface, comment or set whose name reads as one of those is not modelled; ICMP types are numbers; a comment is one token, and the text search for `in` and `out` on route rules looks at whole tokens.
- The error texts, warnings, counts of imported rules and display columns (`RuleLine`, `StatusLines`, `dedupedCount`, `ruleByNumber`).
- The mapping of positions between the two family lists (`applyDual`, `findOtherPosition`), which only calls the engine proved here.
- Set and ban merging of the native import (`mergeSets`, `mergeThreatBans`): simple unions.
- Decoding zone elements and rich rules into templates (`zoneElem`, `richRule`, `emitService`) and firewalld policies: templates are the starting point, with the destination split of a service.
- The text form of expressions in `render.go` other than set elements, and the text normalisation before a diff.
- ParserResults.EchoExact: wildcard endpoints must be stored as "any" and names must not be words of the grammar; rules with an expiry are outside, since the command does not print it.
- Compiler.BanDominates: bans that reach the all-ones address are outside; `AddressSets.EncodingExactIff` says when such sets still hold.
- Compiler.BaseVerdict: rules are port-consistent; `Compiler.CompiledBaseVerdict` is the form for all others.
- Compiler.CompiledBaseVerdict: interface names hold no zero byte and a pattern fits the 16 bytes it is compared in.
- IptablesImport.ImportKeepsDecisions: for packets that are neither related nor established, which every built-in chain here accepts.
- NftImport.ConversionExact: interface names without wildcards, and ICMP only in its own family; `NftImport.ExactIffNarrowing` says when it fails.
- NftRuleset.ImportDecides: for an import into an empty state, like the iptables result.
- FailureDetector.Detector.Observe: times do not go backwards, and an event carries the address each jail's patterns find in it.
- ZoneDispatch.ImportIsDispatch: interface patterns of different zones share no name; `FirewalldZones.DisjointIff` says when that is needed.
- CommandExpiry.ExpiresReads: the clause stands last, behind a token that is not `in`, `out`, `on` or `delete`.
- Decisions.PollerSafety: the address of a decision is parsed text, so hosts and prefixes have the width of their family.
- BaseLogs.BasePrints: the rate limits of a packet all let through or all refuse.
