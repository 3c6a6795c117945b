# A verified model of the batch-testing `.shtest` compiler

batch-testing compiles `.shtest` test scripts to shell scripts. A `.shtest` script is written in French-like phrases, for example `Étape: …`, `Action: … ; Résultat: …`. This project models the deterministic core of that compiler in Dafny and proves what each part promises. The model covers:

- the pattern tables: plugin pattern aggregation, the hybrid rule registry and the command loader;
- the validation-expression parser (a shunting-yard algorithm over `et`, `ou` and parentheses) and the printer that puts an expression back in canonical form;
- the token pipeline: the token record, the lexer filters, the grammar pass that merges an action line with its result line, and the AST builder;
- the shell-framework passes: the lifter of global validations, the binder that turns repeated actions into numbered helpers, the visitor from the parsed file to the framework AST, and the emitter of the final script;
- the small stateful parts: the plugin, grammar, builder and matcher registries, the compile context, and the syntax checker that runs as a state machine over tokens;
- the pattern helpers: placeholder extraction, regex building, variable binding and action-context validation;
- `shell_escape` and `get_sql_command`.

Python values become Dafny values:

- A Python `dict` is an ordered list of pairs with distinct keys (`OrderedDict.ODict`), because insertion order is visible in the code.
- A raised exception is a `Fail` value of a `Result`.
- A YAML or JSON document is a parsed `PyValue.Value`.
- The regex engine, YAML parsing, directory listings and module imports are parameters of the model: oracles, or input sequences in the order the file system gives them.

Objects that the source updates in place are classes with `modifies` clauses:

- the registries;
- `CompileContext`;
- the AST containers.

Each method that loops is proved equal to a specification function. The properties are proved as lemmas about those functions.


## Model

| member | source | states |
|---|---|---|
| PluginPatterns.Tag | vscode/src/extractPluginPatterns.ts:24-32 | the records of one category: one per entry, in entry order, each copying the handler, pattern and scope and tagged with the plugin and the category |
| PluginPatterns.ExtractMissing | vscode/src/extractPluginPatterns.ts:22 | a missing document, or one without `patterns`, yields no record |
| PluginPatterns.FlattenAppend | vscode/src/extractPluginPatterns.ts:23-33 | the records of a list of categories are the records of its parts, concatenated in order |
| PluginPatterns.FlattenCount | vscode/src/extractPluginPatterns.ts:23-33 | the number of records is the sum of the entry-list lengths of all categories |
| PluginPatterns.FlattenAt | vscode/src/extractPluginPatterns.ts:23-31 | entry j of category i is the record at the position after every entry of the earlier categories, tagged with the plugin and that category |
| PluginPatterns.ExtractPatternsFromYml | vscode/src/extractPluginPatterns.ts:18-35 | the nested loops return exactly the flattened records of the document |
| PluginPatterns.ReadConfigFiles | vscode/src/extractPluginPatterns.ts:43-48 | the loop over a config directory reads only `patterns_*.yml` files and appends their records in listing order |
| PluginPatterns.OnlyPatternFilesRead | vscode/src/extractPluginPatterns.ts:43 | a file whose name does not start with `patterns_` and end with `.yml` contributes nothing |
| PluginPatterns.SkippedPlugin | vscode/src/extractPluginPatterns.ts:38-42 | a plugin entry that is not a directory or has no `config` directory contributes nothing and leaves the others' records unchanged |
| PluginPatterns.AggregateAppend | vscode/src/extractPluginPatterns.ts:40-48 | contributions are appended in enumeration order: the records of two plugin lists run together are the records of the first followed by those of the second |
| PluginPatterns.CollectPluginPatterns | vscode/src/extractPluginPatterns.ts:37-49 | `main`'s loop collects exactly the aggregated records of the plugin directories in enumeration order |
| HybridRegistry.Extend | src/shtest_compiler/config/rule_registry_hybrid.py:36 | `setdefault(section, []).extend(items)`: the section's list gets the items appended, a new section goes last, and every other section is unchanged |
| HybridRegistry.MergeEntriesAt | src/shtest_compiler/config/rule_registry_hybrid.py:35-36 | merging one document's `patterns` appends to each section exactly the items the document lists under that name, after the earlier entries |
| HybridRegistry.AddedItemsOne | src/shtest_compiler/config/rule_registry_hybrid.py:35-36 | for a mapping with distinct keys those items are the iterated entry of the section, or none when the document does not mention it |
| HybridRegistry.MergeEntriesIterated | src/shtest_compiler/config/rule_registry_hybrid.py:35-36 | a merge that succeeds has iterated every mentioned entry |
| HybridRegistry.MergeEntriesValid | src/shtest_compiler/config/rule_registry_hybrid.py:35-36 | merging keeps every section name once |
| HybridRegistry.PluginSectionsAt | src/shtest_compiler/config/rule_registry_hybrid.py:29-36 | over all plugin documents, each section holds the earlier entries followed by the items every document lists for it, in document order |
| HybridRegistry.PluginSectionsValid | src/shtest_compiler/config/rule_registry_hybrid.py:29-36 | the plugin table holds every section name once |
| HybridRegistry.PluginPatterns | src/shtest_compiler/config/rule_registry_hybrid.py:26-36 | `plugin_patterns` starts empty and ends with, for each section, exactly the documents' items for it, each name once |
| HybridRegistry.AllPatternsFromDocs | src/shtest_compiler/config/rule_registry_hybrid.py:26-43 | in `ALL_PATTERNS`, `actions` and `validations` are the core entries followed by the plugin items for them, and every other section is exactly the plugin items for it |
| HybridRegistry.MergeEntriesOther | src/shtest_compiler/config/rule_registry_hybrid.py:35-36 | a section the document does not mention keeps exactly its entries |
| HybridRegistry.MergeDocEntries | src/shtest_compiler/config/rule_registry_hybrid.py:35-36 | the loop over one document's sections extends `plugin_patterns` exactly as the merge function does, stopping at the first section whose entries cannot be iterated |
| HybridRegistry.LoadPluginPatterns | src/shtest_compiler/config/rule_registry_hybrid.py:28-36 | the loop over the plugin documents builds exactly the merged `plugin_patterns` table, which holds each section name once |
| HybridRegistry.MergeSectionsAt | src/shtest_compiler/config/rule_registry_hybrid.py:42-43 | after merging the plugin table, each section holds its earlier entries followed by the plugin entries for it |
| HybridRegistry.MergeSectionsKeys | src/shtest_compiler/config/rule_registry_hybrid.py:42-43 | merging keeps the earlier sections first, in their order |
| HybridRegistry.MergedCoreSections | src/shtest_compiler/config/rule_registry_hybrid.py:39-43 | in `ALL_PATTERNS`, `actions` is the core actions followed by the plugins' `actions` entries, likewise `validations`, and these two sections come first |
| HybridRegistry.AddedToList | src/shtest_compiler/config/rule_registry_hybrid.py:105-119 | `_add_to_list`: a missing field becomes `[value]`, a list gets `value` appended exactly once, a field holding anything else fails on `append`; nothing else changes |
| HybridRegistry.Stored | src/shtest_compiler/config/rule_registry_hybrid.py:137 | `obj[key] = v` sets that key and leaves every other key as it was |
| HybridRegistry.AddIfAbsent | src/shtest_compiler/config/rule_registry_hybrid.py:147-148 | `if value not in current: current.append(value)` returns the list unchanged when it holds the value and with the value appended once otherwise |
| HybridRegistry.AddedIfNotExists | src/shtest_compiler/config/rule_registry_hybrid.py:142-161 | `_add_to_list_if_not_exists`: a missing field becomes `[value]`, and no other field changes |
| HybridRegistry.AddIfNotExistsList | src/shtest_compiler/config/rule_registry_hybrid.py:149-154 | on a list field, the value is appended once when absent and the list is left alone when present, so a list without duplicates stays so |
| HybridRegistry.SetDictValueInDict | src/shtest_compiler/config/rule_registry_hybrid.py:130-137 | `_set_dict_value` on a dict: a dict value is merged into the field (a new field starts as `{}`), a string replaces it, a field holding a non-dict fails on `update`; other keys unchanged |
| HybridRegistry.DictUpdate | src/shtest_compiler/config/rule_registry_hybrid.py:127 | `dict.update(arg)`: a mapping adds its pairs, the empty string changes nothing, any other string raises `ValueError` because its first element has length 1 |
| HybridRegistry.SetDictValueOnObject | src/shtest_compiler/config/rule_registry_hybrid.py:123-129 | `_set_dict_value` on an object: an attribute holding a dict is updated in place, any other or missing attribute is set to the value; other attributes unchanged |
| HybridRegistry.LastSqlAt | src/shtest_compiler/config/rule_registry_hybrid.py:195 | the last position at which `.sql` occurs in a word, up to a bound, or none when it occurs nowhere there |
| HybridRegistry.SqlMatch | src/shtest_compiler/config/rule_registry_hybrid.py:195 | what `\S+\.sql` finds in a run of non-blank characters: the longest prefix ending in `.sql` after at least one character, and nothing exactly when no such `.sql` occurs |
| HybridRegistry.AddAllList | src/shtest_compiler/config/rule_registry_hybrid.py:196-198 | the loop over the found scripts keeps the old list as a prefix, ends up holding every script, and adds no duplicate |
| HybridRegistry.SqlScriptsNoDuplicates | src/shtest_compiler/config/rule_registry_hybrid.py:194-198 | `_handle_sql_script_text` never adds a script already listed: a duplicate-free `sql_scripts` stays duplicate-free, keeps its entries first and ends up holding every script found |
| HybridRegistry.Target.constructor | src/shtest_compiler/config/rule_registry_hybrid.py:105-161 | a handler target (a dict or an object) with the given fields |
| HybridRegistry.Target.AddToList | src/shtest_compiler/config/rule_registry_hybrid.py:105-119 | the target's fields become what `AddedToList` gives, or are left unchanged when it fails |
| HybridRegistry.Target.AddToListIfNotExists | src/shtest_compiler/config/rule_registry_hybrid.py:142-161 | the target's fields become what `AddedIfNotExists` gives, or are left unchanged when it fails |
| HybridRegistry.Target.SetDictValue | src/shtest_compiler/config/rule_registry_hybrid.py:121-140 | the target's fields become what `_set_dict_value` gives for a dict or an object target |
| HybridRegistry.Target.HandleSqlScriptText | src/shtest_compiler/config/rule_registry_hybrid.py:194-198 | the loop adds each found script to `sql_scripts` as `SqlScriptsAdded` describes, or fails as it does |
| HybridRegistry.PatternText | src/shtest_compiler/config/rule_registry_hybrid.py:209 | `entry.get("pattern") or entry.get("phrase")` is truthy exactly when one of the two is, and prefers a truthy `pattern` |
| HybridRegistry.RuleOf | src/shtest_compiler/config/rule_registry_hybrid.py:209-216 | an entry with neither `pattern` nor `phrase` gives no rule; otherwise its rule carries that text and a registered handler; an unknown handler fails with `KeyError`, an unhashable one with `TypeError` |
| HybridRegistry.RuleOfSelected | src/shtest_compiler/config/rule_registry_hybrid.py:209-216 | an entry that does not fail contributes exactly the rule it calls for (its pattern or phrase and the name in its `handler` field), with a registered handler |
| HybridRegistry.RulesFromCount | src/shtest_compiler/config/rule_registry_hybrid.py:205-217 | when collecting succeeds, the result is the rules already collected followed by exactly the rules the entries call for, in entry order |
| HybridRegistry.RulesFromRegistered | src/shtest_compiler/config/rule_registry_hybrid.py:215 | when collecting succeeds, every selected rule names a registered handler |
| HybridRegistry.LoadRulesSelected | src/shtest_compiler/config/rule_registry_hybrid.py:200-217 | `load_rules()` gives exactly the rules the entries of all sections call for, in section and entry order, each with a registered handler |
| HybridRegistry.LoadRules | src/shtest_compiler/config/rule_registry_hybrid.py:200-217 | `load_rules`' nested loops give exactly the rules of the entries of all sections in order |
| CommandLoader.MergeFromLists | src/shtest_compiler/command_loader.py:51-52 | extending by each plugin list in turn appends exactly their items, in order |
| CommandLoader.MergedListsOfLists | src/shtest_compiler/command_loader.py:49-53 | `merge_yaml_lists` returns the core list followed by each plugin list in order; the core list is copied, not changed |
| CommandLoader.MergeYamlLists | src/shtest_compiler/command_loader.py:49-53 | the loop gives exactly the merged list, or the exception `list()`/`extend` raise on a non-iterable |
| CommandLoader.FirstExisting | src/shtest_compiler/command_loader.py:42-46 | the first candidate present in the directory, and none exactly when no candidate is present |
| CommandLoader.KindFiles | src/shtest_compiler/command_loader.py:38-41 | the listed files that end with `.yml` and contain the kind, and only those |
| CommandLoader.FindPluginYamlOrder | src/shtest_compiler/command_loader.py:29-46 | `patterns_{kind}.yml` wins, then `patterns_{plugin}.yml`, then the first listed `.yml` containing the kind; None exactly when none of these exists |
| CommandLoader.AddRequirements | src/shtest_compiler/command_loader.py:158-159 | a falsy document is skipped; a dictionary adds its pairs; a non-empty string raises `ValueError` (its first element has length 1); a number or `True` raises `TypeError` as not iterable |
| PyValue.DictUpdate | src/shtest_compiler/command_loader.py:166 | `dict.update(v)`: a dict adds its pairs in order, a value that is not iterable raises `TypeError` |
| PyValue.UpdatePair | src/shtest_compiler/command_loader.py:166 | an element of a non-mapping argument must be iterable (else `TypeError` naming its position) with exactly two items (else `ValueError` giving its length); a two-character string gives its two characters |
| PyValue.DictUpdateString | src/shtest_compiler/command_loader.py:166 | a string argument is accepted only when empty, and otherwise raises `ValueError` for its first element |
| PyValue.DictUpdatePairs | src/shtest_compiler/command_loader.py:166 | a list of two-item lists with string keys adds its pairs in order, as the dictionary of those pairs would |
| CommandLoader.LoadAndMergeHandlerRequirements | src/shtest_compiler/command_loader.py:152-167 | the loop over the core and plugin documents gives exactly the merged requirements |
| CommandLoader.RequirementsSnoc | src/shtest_compiler/command_loader.py:161-166 | one more document is merged after the others |
| CommandLoader.LaterOverrides | src/shtest_compiler/command_loader.py:152-167 | a key holds its value from the last document that defines it, plugins after core, and the merge does not fail on dictionary documents |
| Text.LowerIdempotent | src/shtest_compiler/command_loader.py:218 | `str.lower()` applied twice is applied once, with U+0130 becoming `i` and U+0307 and a capital sigma becoming `ς` or `σ` |
| Text.LowerFromChars | src/shtest_compiler/command_loader.py:218 | lowering in context is lowering each character on its own once every capital sigma is replaced by the small sigma its context calls for |
| Text.LowerFinalSigma | src/shtest_compiler/command_loader.py:218 | a capital sigma after a cased letter and before none lowers to the final `ς`, as in `"ΟΣ".lower() == "ος"`, elsewhere to `σ`; case-ignorable characters such as `.` are skipped |
| Text.LowerAccented | src/shtest_compiler/command_loader.py:218 | accented capitals are lowered too: `CRÉER` and `créer` lower to the same text |
| Text.LowerToAscii | src/shtest_compiler/parser/shunting_yard.py:152 | compared with an ASCII word, `str.lower()` and lowering only `A`-`Z` agree: no other character lowers to ASCII except U+0130, which brings U+0307 with it |
| CommandLoader.Normalize | src/shtest_compiler/command_loader.py:213-218 | `_normalize`: None gives "", a string is lower-cased and stripped, a dict stands for its `pattern` or `phrase`; the result is always stripped |
| CommandLoader.AnyInString | src/shtest_compiler/command_loader.py:221 | `any(c in alias for c in chars)` on a string is whether one of the characters occurs in it |
| CommandLoader.IsRegexString | src/shtest_compiler/command_loader.py:220-221 | a string alias counts as a regex exactly when it contains one of `.*+?^$[](){}\|\\` |
| CommandLoader.AddEntry | src/shtest_compiler/command_loader.py:189-193 | an entry with neither `phrase` nor `pattern` is skipped and leaves the table unchanged |
| CommandLoader.AddEntryStored | src/shtest_compiler/command_loader.py:189-199 | an entry with a phrase is stored under its normalized phrase with its handler and its scope, "global" when it names none |
| CommandLoader.LoadPatterns | src/shtest_compiler/command_loader.py:183-211 | the loop over the entries and their aliases builds exactly the table `_load_patterns` describes |
| CommandLoader.AddAliasClosed | src/shtest_compiler/command_loader.py:200-206 | an alias keeps the table closed (every alias leads to a stored canonical) and leaves the canonicals unchanged |
| CommandLoader.AddAliasesClosed | src/shtest_compiler/command_loader.py:200-206 | all of an entry's aliases keep the table closed and the canonicals unchanged |
| CommandLoader.AddAliasesKeep | src/shtest_compiler/command_loader.py:200-206 | adding aliases never changes the canonical records |
| CommandLoader.AddEntryClosed | src/shtest_compiler/command_loader.py:188-206 | after one entry the table is still closed |
| CommandLoader.LoadFromClosed | src/shtest_compiler/command_loader.py:183-211 | every table `_load_patterns` builds is closed |
| CommandLoader.LookupCanon | src/shtest_compiler/command_loader.py:231 | on a closed table, `canonicals[_normalize(canonical)]` finds the stored record |
| CommandLoader.Canonize | src/shtest_compiler/command_loader.py:223-240 | the exact canonical is tried first, then the alias map, then the regex aliases in order |
| CommandLoader.RegexLookupNone | src/shtest_compiler/command_loader.py:233-240 | when no regex alias matches, a `re.error` counting as no match, the result is None |
| CommandLoader.RegexLookupClosed | src/shtest_compiler/command_loader.py:233-240 | on a closed table the regex-alias lookup raises only what the regex engine raises, never KeyError |
| CommandLoader.CanonizeClosed | src/shtest_compiler/command_loader.py:223-240 | on a closed table `canonize_action` raises only what the regex engine raises |
| CommandLoader.NewPatternRegistry | src/shtest_compiler/command_loader.py:178-181 | both tables of a new `PatternRegistry` are closed |
| ShuntingYard.SeparatorAt | src/shtest_compiler/parser/shunting_yard.py:143 | the length of the `(\bet\b\|\bou\b\|\(\|\))` match at a position, which is a separator, and 0 only where no parenthesis stands |
| ShuntingYard.Pieces | src/shtest_compiler/parser/shunting_yard.py:143 | `re.split` with a capturing group: text pieces, which hold no parenthesis, alternate with the separators matched |
| ShuntingYard.PiecesConcat | src/shtest_compiler/parser/shunting_yard.py:143 | the pieces of the split, read in order, are the expression itself |
| ShuntingYard.SplitConcat | src/shtest_compiler/parser/shunting_yard.py:143 | the split loses and adds nothing |
| ShuntingYard.Clean | src/shtest_compiler/parser/shunting_yard.py:143 | `[t.strip() for t in pieces if t.strip()]` keeps only non-empty, stripped pieces |
| ShuntingYard.SeparatorToken | src/shtest_compiler/parser/shunting_yard.py:143 | an operator or parenthesis comes out as a token of its own, between the tokens of the text before and after it |
| ShuntingYard.Tokenize | src/shtest_compiler/parser/shunting_yard.py:142-143 | `_tokenize_expression`: every token is trimmed and non-empty, and is an operator or parenthesis on its own or text in which the separator pattern matches nowhere: no parenthesis and no whole-word `et` or `ou` |
| ShuntingYard.CutNoOperator | src/shtest_compiler/parser/shunting_yard.py:143 | a piece cut at word boundaries holds a whole-word `et`/`ou` only where the expression has one there |
| ShuntingYard.PiecesNoOperator | src/shtest_compiler/parser/shunting_yard.py:143 | every text piece of `re.split` holds no whole-word `et` or `ou`: the scan matched each one as a separator |
| ShuntingYard.SplitTokenish | src/shtest_compiler/parser/shunting_yard.py:143 | the split alternates separators with text holding neither a parenthesis nor a whole-word operator |
| ShuntingYard.StripNoOperator | src/shtest_compiler/parser/shunting_yard.py:143 | `strip()` cuts at whitespace, so a stripped piece gains no whole-word operator |
| ShuntingYard.EmptyTokens | src/shtest_compiler/parser/shunting_yard.py:142-143 | an empty expression yields no token |
| ShuntingYard.LowerExact | src/shtest_compiler/parser/shunting_yard.py:152-154 | `tok.lower()` is `et` or `ou` exactly when lower-casing only `A`-`Z` gives `et` or `ou`, and then both give the same text, so the operator tests may use the ASCII lowering |
| ShuntingYard.Precedence | src/shtest_compiler/parser/shunting_yard.py:147 | `et` has precedence 2 and `ou` precedence 1 |
| ShuntingYard.ToPostfix | src/shtest_compiler/parser/shunting_yard.py:146-170 | `_to_postfix`'s loop with its output list and stack computes exactly the postfix function |
| ShuntingYard.EvaluatePostfix | src/shtest_compiler/parser/shunting_yard.py:179-186 | the stack loop of `parse_validation_expression` computes exactly the evaluation function |
| ShuntingYard.Resolve | src/shtest_compiler/parser/shunting_yard.py:176 | every token other than `et`, `ou` and the parentheses goes through the alias resolver; those four stay as they are |
| ShuntingYard.ParseValidationExpression | src/shtest_compiler/parser/shunting_yard.py:173-188 | `parse_validation_expression` is tokenize, resolve, postfix, evaluate, then `stack[0]` |
| ShuntingYard.EmptyExpressionFails | src/shtest_compiler/parser/shunting_yard.py:188 | an expression with no token fails on `stack[0]` with IndexError |
| ShuntingYard.PopHigherProps | src/shtest_compiler/parser/shunting_yard.py:154-155 | popping higher-or-equal operators moves no parenthesis and no operand |
| ShuntingYard.PopToOpenProps | src/shtest_compiler/parser/shunting_yard.py:160-161 | the pops on `)` stop at a `(` or an empty stack and move no parenthesis and no operand |
| ShuntingYard.StepProps | src/shtest_compiler/parser/shunting_yard.py:151-165 | one token keeps the output free of `)` and the stack free of operands, adds the token to the output exactly when it is an operand, and tracks the open parentheses |
| ShuntingYard.RunProps | src/shtest_compiler/parser/shunting_yard.py:151-165 | the same over all tokens |
| ShuntingYard.PostfixParens | src/shtest_compiler/parser/shunting_yard.py:158-168 | `)` never reaches the postfix output, and `(` does exactly when a `(` of the expression is left unclosed |
| ShuntingYard.BalancedPostfix | src/shtest_compiler/parser/shunting_yard.py:158-166 | with every `(` closed the postfix output holds no parenthesis at all |
| ShuntingYard.PostfixOperands | src/shtest_compiler/parser/shunting_yard.py:165-166 | operand tokens reach the postfix output in their original relative order |
| ShuntingYard.EvalLeaves | src/shtest_compiler/parser/shunting_yard.py:180-186 | the evaluation keeps the leaves in postfix order: `BinaryOp(op, left, right)` with `left` the node below `right` |
| ShuntingYard.Groups | src/shtest_compiler/parser/shunting_yard.py:147-156 | the operands of a well-formed expression cut into the runs joined by `et` that the `ou` operators separate, none empty |
| ShuntingYard.EvalCombine | src/shtest_compiler/parser/shunting_yard.py:181-184 | an operator combines the two top nodes into one `BinaryOp`, left below right |
| ShuntingYard.FlushPending | src/shtest_compiler/parser/shunting_yard.py:167-168 | flushing the pending operators over the pending nodes gives the reference tree of the groups |
| ShuntingYard.PopAllOperators | src/shtest_compiler/parser/shunting_yard.py:154-155 | with only operators on the stack, an `ou` pops all of them |
| ShuntingYard.ShiftOperand | src/shtest_compiler/parser/shunting_yard.py:164-165 | an operand goes to the output and becomes a leaf |
| ShuntingYard.ShiftOu | src/shtest_compiler/parser/shunting_yard.py:153-156 | `ou` then an operand: every pending operator is applied and a new group starts |
| ShuntingYard.ShiftEt | src/shtest_compiler/parser/shunting_yard.py:153-156 | `et` then an operand: the operand joins the current group |
| ShuntingYard.ShiftEtChain | src/shtest_compiler/parser/shunting_yard.py:154-156 | a pending `et` of the current group is applied before the new `et` is pushed (left associativity) |
| ShuntingYard.ShiftEtFirst | src/shtest_compiler/parser/shunting_yard.py:154-156 | the first `et` of a group goes on the stack above a pending `ou` |
| ShuntingYard.RunAlternating | src/shtest_compiler/parser/shunting_yard.py:151-165 | after each operand of a well-formed expression the state holds exactly the pending groups |
| ShuntingYard.AlternatingParse | src/shtest_compiler/parser/shunting_yard.py:146-188 | for operands joined by operators, `et` binds tighter than `ou`, both associate to the left, and the reference tree is the only node left |
| ShuntingYard.OrChainLeaves | src/shtest_compiler/parser/shunting_yard.py:180-186 | the leaves of the reference tree are the operands of its groups in order |
| ShuntingYard.GroupsFlat | src/shtest_compiler/parser/shunting_yard.py:180-188 | the groups hold the operands in order, and there are half the tokens plus one |
| ShuntingYard.ReferenceLeaves | src/shtest_compiler/parser/shunting_yard.py:180-188 | n operands and n-1 operators give a tree with n `Atomic` leaves in left-to-right order |
| ShuntingYard.GroupsSnoc | src/shtest_compiler/parser/shunting_yard.py:153-156 | one more operator and operand: `ou` opens a group, `et` extends the last one |
| ShuntingYard.EtUnderOu | src/shtest_compiler/parser/shunting_yard.py:147-156 | `a ou b et c` parses as `a ou (b et c)` |
| ShuntingYard.EtBeforeOu | src/shtest_compiler/parser/shunting_yard.py:147-156 | `a et b ou c` parses as `(a et b) ou c` |
| ShuntingYard.EtLeftAssociative | src/shtest_compiler/parser/shunting_yard.py:154 | `a et b et c` parses as `(a et b) et c` |
| ShuntingYard.OuLeftAssociative | src/shtest_compiler/parser/shunting_yard.py:154 | `a ou b ou c` parses as `(a ou b) ou c` |
| ShuntingYard.UnclosedParenPostfix | src/shtest_compiler/parser/shunting_yard.py:157-168 | an unclosed `(` reaches the postfix output after the operands that follow it |
| ShuntingYard.UnclosedParen | src/shtest_compiler/parser/shunting_yard.py:180-186 | that `(` is then evaluated as an `Atomic` operand |
| LegacyShuntingYard.LegacyParseTokens | src/parser/shunting_yard.py:57-66 | the older copy returns a tree whenever evaluation succeeds, and `Atomic("")` when no node is left |
| LegacyShuntingYard.LegacyParseValidationExpression | src/parser/shunting_yard.py:51-66 | the older `parse_validation_expression` is tokenize, resolve, the shared postfix and evaluation, then `stack.pop() if stack else Atomic("")` |
| LegacyShuntingYard.EmptyExpressionIsEmptyAtom | src/parser/shunting_yard.py:66 | an empty expression gives `Atomic("")` here, where the newer copy fails |
| LegacyShuntingYard.SingleTreeAgrees | src/parser/shunting_yard.py:59-66 | when evaluation leaves exactly one tree, both copies return it |
| LegacyShuntingYard.AlternatingAgrees | src/parser/shunting_yard.py:26-66 | on operands joined by operators both copies build the same reference tree, so `et` takes precedence over `ou` with left associativity here too |
| LegacyShuntingYard.UnclosedParenDiffers | src/parser/shunting_yard.py:66 | with an unclosed `(` two nodes are left: the newer copy returns the first, this one the last |
| ExcelExport.AstToStr | src/shtest_compiler/export_to_excel.py:10-12 | an `Atomic` node prints as its value |
| ExcelExport.PrintBinary | src/shtest_compiler/export_to_excel.py:13-19 | a `BinaryOp` prints as "left op right" with single spaces, and the top level is never parenthesized |
| ExcelExport.ParensOnlyOuUnderEt | src/shtest_compiler/export_to_excel.py:17-18 | parentheses are added exactly when a child's precedence is lower than its parent's, that is an `ou` node directly under `et`; any other node prints as at the top level |
| ExcelExport.OuUnderEtPrints | src/shtest_compiler/export_to_excel.py:17-18 | `(a ou b) et c` keeps its parentheses |
| ExcelExport.EtUnderOuPrints | src/shtest_compiler/export_to_excel.py:17-18 | `(a et b) ou c` prints as `a et b ou c` |
| ExcelExport.RightNestingFlattens | src/shtest_compiler/export_to_excel.py:17 | equal precedence on the right is not parenthesized, so `a ou (b ou c)` and `(a ou b) ou c` print alike |
| ExcelExport.EvalOpsOk | src/shtest_compiler/export_to_excel.py:6 | the stack evaluation builds only `et` and `ou` nodes |
| ExcelExport.ParsedOpsOk | src/shtest_compiler/export_to_excel.py:23 | every parsed tree has only `et` and `ou` nodes, so `_PREC` never misses |
| ExcelExport.CanonicalizeResult | src/shtest_compiler/export_to_excel.py:22-24 | `canonicalize_result` fails exactly when parsing the cleaned result fails |
| ExcelExport.CanonicalizeIsPrint | src/shtest_compiler/export_to_excel.py:22-24 | when the cleaned result parses, its canonical form is the printed tree |
| ExcelExport.TrailingPunctuationIgnored | src/shtest_compiler/export_to_excel.py:23 | a trailing `.` or `;` does not change the canonical form |
| ExcelExport.AndChainSnoc | src/shtest_compiler/export_to_excel.py:14-19 | appending `et a` to a chain of `et` appends it to the printed text |
| ExcelExport.OrChainNewGroup | src/shtest_compiler/export_to_excel.py:14-19 | a new `ou` group of one operand appends `ou a` to the printed text |
| ExcelExport.OrChainExtend | src/shtest_compiler/export_to_excel.py:14-19 | extending the last group appends `et a` to the printed text |
| ExcelExport.PrintReferenceSnoc | src/shtest_compiler/export_to_excel.py:10-19 | one more operator and operand add themselves to the printed text, single-spaced |
| ExcelExport.PrintReference | src/shtest_compiler/export_to_excel.py:10-19 | the tree of a well-formed, parenthesis-free expression prints as its tokens joined by single spaces, operators in lower case |
| ExcelExport.CanonicalizeAlternating | src/shtest_compiler/export_to_excel.py:22-24 | `canonicalize_result` of such a result is its resolved tokens, single-spaced, operators in lower case: the printer undoes the parser |
| Grammar.JoinOriginals | src/shtest_compiler/parser/grammar.py:135 | `action.original + " ; " + result.original` joins the two originals, and raises TypeError exactly when one is None |
| Grammar.MergedToken | src/shtest_compiler/parser/grammar.py:129-136 | the merged token is an `ACTION_RESULT` carrying the action's value, line and column, the result's value and the joined originals; building it fails on a missing original or an invalid position |
| Grammar.MergeStep | src/shtest_compiler/parser/grammar.py:114-141 | one step of the loop: an `ACTION_ONLY` directly followed by `RESULT_ONLY` gives one merged token and skips two, any other token is copied and skips one |
| Grammar.MergeActionResult | src/shtest_compiler/parser/grammar.py:96-148 | `_merge_action_result`'s index loop computes exactly the merge function |
| Grammar.MergeLength | src/shtest_compiler/parser/grammar.py:112-141 | the output is shorter than the input by the number of merges, that is by the number of `ACTION_RESULT` tokens the pass created |
| Grammar.MergeHead | src/shtest_compiler/parser/grammar.py:114-141 | the first output token is the merged one when the input opens with a pair, and the first input token otherwise |
| Grammar.MergeLeavesNoPair | src/shtest_compiler/parser/grammar.py:113-141 | after the pass no `ACTION_ONLY` is directly followed by `RESULT_ONLY` |
| Grammar.MergeWithoutPair | src/shtest_compiler/parser/grammar.py:113-141 | without a pair to merge, every token passes through unchanged and in order |
| Grammar.MergeIdempotent | src/shtest_compiler/parser/grammar.py:96-148 | running the merge twice is running it once |
| Grammar.JoinedPrefixed | src/shtest_compiler/parser/grammar.py:137-140 | tokens put in front of a result stay in front after joining |
| Grammar.MergeAppend | src/shtest_compiler/parser/grammar.py:113-141 | when no pair straddles the cut, merging `a + b` is merging `a`, then `b`: tokens pass through in order |
| Grammar.MergePair | src/shtest_compiler/parser/grammar.py:116-137 | a lone pair becomes the merged token, or raises what building it raises |
| Grammar.ValidateStructure | src/shtest_compiler/parser/grammar.py:80-94 | `_validate_basic_structure` leaves tokens with a STEP unchanged and otherwise inserts the default step at index 0, so the result always has a step |
| Grammar.ValidateIdempotent | src/shtest_compiler/parser/grammar.py:80-94 | checking the structure twice is checking it once |
| Grammar.ValidateKeepsNoPair | src/shtest_compiler/parser/grammar.py:80-94 | inserting the default step creates no action/result pair |
| Grammar.TransformSplit | src/shtest_compiler/parser/grammar.py:49-50 | running a list of rules is running its first part, then its second part on that result |
| Grammar.InsertionPoint | src/shtest_compiler/parser/grammar.py:37-39 | the number of leading rules of priority at least p: where a stable descending sort puts a new rule of priority p |
| Grammar.InsertShape | src/shtest_compiler/parser/grammar.py:37-39 | the new rule lands after every rule of priority at least its own, so after the old rules of equal priority, and the old rules keep their order around it |
| Grammar.InsertSorted | src/shtest_compiler/parser/grammar.py:35-39 | adding to a sorted list keeps it sorted by descending priority and adds exactly the new rule |
| Grammar.InsertAllSorted | src/shtest_compiler/parser/grammar.py:170-174 | adding rules one by one gives a sorted list holding exactly those rules |
| Grammar.RemoveKeeps | src/shtest_compiler/parser/grammar.py:41-43 | `remove_rule` leaves no rule of that name, keeps every other rule, and keeps the list sorted |
| Grammar.GrammarTransformer.constructor | src/shtest_compiler/parser/grammar.py:32-33 | a new transformer has no rule |
| Grammar.GrammarTransformer.Default | src/shtest_compiler/parser/grammar.py:55-78 | `DefaultGrammar` holds the merge rule (priority 200) then the structure check (priority 100) |
| Grammar.GrammarTransformer.Custom | src/shtest_compiler/parser/grammar.py:167-174 | `CustomGrammar(rules)` adds each rule in turn |
| Grammar.GrammarTransformer.AddRule | src/shtest_compiler/parser/grammar.py:35-39 | `add_rule` appends the rule, then stable-sorts by descending priority |
| Grammar.GrammarTransformer.RemoveRule | src/shtest_compiler/parser/grammar.py:41-43 | `remove_rule` keeps exactly the rules of other names, in order |
| Grammar.GrammarTransformer.Transform | src/shtest_compiler/parser/grammar.py:45-52 | `transform` applies the rules in list order, starting from a copy of the input |
| Grammar.DefaultRules | src/shtest_compiler/parser/grammar.py:150-152 | the default grammar merges, then checks the structure |
| Grammar.DefaultMatchShape | src/shtest_compiler/parser/grammar.py:150-152 | what the default grammar hands on has a step and no unmerged action/result pair |
| Grammar.Registry.constructor | src/shtest_compiler/parser/grammar.py:197-199 | a new registry is empty, with `default` as its default name |
| Grammar.Registry.Register | src/shtest_compiler/parser/grammar.py:201-205 | a non-conforming class raises ValueError and changes nothing; otherwise the name maps to the class, a known name keeping its place in the listing |
| Grammar.Registry.Get | src/shtest_compiler/parser/grammar.py:207-211 | `get` returns the registered class, and raises KeyError exactly for a name never registered |
| Grammar.Registry.List | src/shtest_compiler/parser/grammar.py:218-220 | `list` returns exactly the registered names |
| Grammar.Registry.SetDefault | src/shtest_compiler/parser/grammar.py:222-226 | `set_default` accepts only a registered name and otherwise raises KeyError, leaving the default unchanged |
| Grammar.GlobalGrammarRegistry | src/shtest_compiler/parser/grammar.py:233-238 | the module-level registry lists `default` and `custom`, bound to their classes, with `default` as default |
| AstBuilder.Command | src/shtest_compiler/parser/ast_builder.py:147 | `token.value.rstrip(" ;")` is a prefix of the value that ends in neither a blank nor `;` |
| AstBuilder.ResultExpr | src/shtest_compiler/parser/ast_builder.py:148 | `token.result.rstrip(".;").strip() if token.result else None` is present exactly when the result is a non-empty string, and is then stripped |
| AstBuilder.ActionOf | src/shtest_compiler/parser/ast_builder.py:146-183 | an action token becomes an action with its line and original text; the command is None exactly for a `RESULT_ONLY` token; an `ACTION_ONLY` action has no result |
| AstBuilder.EmptyActionOrigin | src/shtest_compiler/parser/ast_builder.py:173-183 | an action with neither command nor result comes only from a `RESULT_ONLY` token whose result is missing or empty |
| AstBuilder.Feed | src/shtest_compiler/parser/ast_builder.py:141-184 | each STEP token adds exactly one step, and no other token adds one |
| AstBuilder.BuildBasicAst | src/shtest_compiler/parser/ast_builder.py:136-186 | `_build_basic_ast`'s loop gives exactly the built steps, in a new file with the given path and empty variables |
| AstBuilder.FeedHeads | src/shtest_compiler/parser/ast_builder.py:142-143 | adding an action keeps the steps' names and lines |
| AstBuilder.BuiltSteps | src/shtest_compiler/parser/ast_builder.py:142-144 | each STEP token creates exactly one step, in order, named by its stripped value and carrying its line |
| AstBuilder.DropsBeforeFirstStep | src/shtest_compiler/parser/ast_builder.py:156-157 | action tokens before the first STEP are dropped |
| AstBuilder.NoStepNoSteps | src/shtest_compiler/parser/ast_builder.py:139-186 | without STEP tokens there is no step |
| AstBuilder.BuiltActions | src/shtest_compiler/parser/ast_builder.py:141-184 | once a step is open, every action token becomes exactly one action, in token order |
| AstBuilder.LastStepActions | src/shtest_compiler/parser/ast_builder.py:156-184 | actions attach to the most recent step: the last step holds exactly the actions of the tokens after the last STEP |
| AstBuilder.Normalized | src/shtest_compiler/parser/ast_builder.py:97-101 | `_normalize_step_names` strips every name and changes nothing else |
| AstBuilder.WithDefaults | src/shtest_compiler/parser/ast_builder.py:103-116 | `_add_default_actions` gives each step without actions the default echo action, at the step's line, and leaves the others alone |
| AstBuilder.DefaultTransformersShape | src/shtest_compiler/parser/ast_builder.py:73-116 | after the default transformers every name is stripped and every step has an action; running them again changes nothing |
| AstBuilder.DefaultsGiveActions | src/shtest_compiler/parser/ast_builder.py:103-116 | every step then has an action, with its name and line unchanged |
| AstBuilder.NormalizeStepNames | src/shtest_compiler/parser/ast_builder.py:97-101 | the method strips the names of the file's steps in place and nothing else |
| AstBuilder.AddDefaultActions | src/shtest_compiler/parser/ast_builder.py:103-116 | the method adds the default actions to the file's steps in place and nothing else |
| AstBuilder.FailingTransformerSkipped | src/shtest_compiler/parser/ast_builder.py:50-55 | a transformer that raises is skipped: the file is as if it were not there |
| AstBuilder.DefaultTransformers | src/shtest_compiler/parser/ast_builder.py:73-76 | the two default transformers run in their order |
| AstBuilder.RunTransformers | src/shtest_compiler/parser/ast_builder.py:47-56 | `ASTTransformer.transform` applies the transformers in order to the file |
| AstBuilder.StepErrorsAtEmpty | src/shtest_compiler/parser/ast_builder.py:82-85 | a step gives no error exactly when its name is not blank and it has actions |
| AstBuilder.StepErrorsEmpty | src/shtest_compiler/parser/ast_builder.py:78-86 | `_validate_steps` reports nothing exactly when every step is good |
| AstBuilder.ValidateSteps | src/shtest_compiler/parser/ast_builder.py:78-86 | the loop over `enumerate(ast.steps)` gives exactly the step errors, in order |
| AstBuilder.ActionErrorsAtEmpty | src/shtest_compiler/parser/ast_builder.py:92-94 | the actions of a step give no error exactly when none lacks both command and result |
| AstBuilder.ActionErrorsEmpty | src/shtest_compiler/parser/ast_builder.py:88-95 | `_validate_actions` reports nothing exactly when no action lacks both parts |
| AstBuilder.ValidateActions | src/shtest_compiler/parser/ast_builder.py:88-95 | the two nested loops give exactly the action errors, in order |
| AstBuilder.Validate | src/shtest_compiler/parser/ast_builder.py:24-34 | `ASTValidator.validate` collects list results and single results in order |
| AstBuilder.RaisingValidatorRecorded | src/shtest_compiler/parser/ast_builder.py:32-33 | a validator that raises adds exactly one message, "Validation error: " and the exception |
| AstBuilder.DefaultStepWarnings | src/shtest_compiler/parser/ast_builder.py:78-116 | after the default transformers the step validator is silent exactly when every step has a non-blank name |
| AstBuilder.DefaultGood | src/shtest_compiler/parser/ast_builder.py:82-85 | a transformed step is good exactly when its name was not blank |
| AstBuilder.Build | src/shtest_compiler/parser/ast_builder.py:118-134 | `DefaultASTBuilder.build` gives the built file with the default transformers applied, and the warnings of the default validators |
| AstBuilder.BuildCustom | src/shtest_compiler/parser/ast_builder.py:213-229 | `CustomASTBuilder.build` is the basic build, then the given transformers and validators |
| AstBuilder.BuildShape | src/shtest_compiler/parser/ast_builder.py:118-134 | the default build has one step per STEP token, with its stripped name and line, and an action in every step |
| AstBuilder.GlobalAstBuilderRegistry | src/shtest_compiler/parser/ast_builder.py:241-285 | the module-level registry lists `default` and `custom`, bound to their builder classes, with `default` as default |
| LexerCore.TypeNamed | src/shtest_compiler/parser/lexer/core.py:12-22 | looking a name up among the `TokenType` members gives a member of that name |
| LexerCore.TypeNameRoundTrip | src/shtest_compiler/parser/lexer/core.py:12-22 | every member's `name` looks up as that member |
| LexerCore.KindInjective | src/shtest_compiler/parser/lexer/core.py:46-49 | two tokens have the same `kind` exactly when they have the same type |
| LexerCore.MakeToken | src/shtest_compiler/parser/lexer/core.py:37-44 | `Token(...)` succeeds exactly when the type is a member, the line is at least 1 and a set column is not negative; otherwise the first failing check's `ValueError`, with its message |
| LexerCore.TokenStrShape | src/shtest_compiler/parser/lexer/core.py:51-56 | `str(token)` is kind, `@`, line, `:`, column and the quoted value, followed by ` -> '<result>'` exactly when the result is non-empty |
| LexerCore.Spaces | src/shtest_compiler/parser/lexer/core.py:89 | `' ' * n` is `n` blanks |
| LexerCore.LexerErrorMentionsColumn | src/shtest_compiler/parser/lexer/core.py:79-84 | the message names the column exactly when the column is above 0 |
| LexerCore.LexerErrorCaret | src/shtest_compiler/parser/lexer/core.py:86-89 | with a non-empty line and a positive column, the message ends with `column - 1` blanks and a caret |
| LexerCore.LexerErrorNoLine | src/shtest_compiler/parser/lexer/core.py:84-91 | without a line the message ends with the error text |
| Filters.RunComposite | src/shtest_compiler/parser/lexer/filters.py:90-98 | the loop of `CompositeFilter.filter` gives the tokens that its filters, applied in order, let through |
| Filters.EmptyFilterDrops | src/shtest_compiler/parser/lexer/filters.py:31-40 | `EmptyFilter` keeps exactly the tokens whose kind is not `EMPTY`, and distributes over concatenation |
| Filters.WhitespaceFilterDrops | src/shtest_compiler/parser/lexer/filters.py:43-52 | `WhitespaceFilter` keeps exactly the tokens whose value does not strip to nothing |
| Filters.CommentFilterDrops | src/shtest_compiler/parser/lexer/filters.py:55-64 | `CommentFilter` keeps exactly the tokens whose value does not start with `#` |
| Filters.DebugIdentity | src/shtest_compiler/parser/lexer/filters.py:67-75 | `DebugFilter` yields its input unchanged |
| Filters.SingleIdempotent | src/shtest_compiler/parser/lexer/filters.py:31-75 | running any single filter twice is running it once |
| Filters.SinglesCommute | src/shtest_compiler/parser/lexer/filters.py:31-98 | two single filters composed give the same tokens in either order |
| Filters.ApplyPair | src/shtest_compiler/parser/lexer/filters.py:90-98 | a composite of two filters is the second applied to the output of the first |
| Filters.CompositeEmpty | src/shtest_compiler/parser/lexer/filters.py:90-98 | an empty composite yields its input |
| Filters.CompositeSplit | src/shtest_compiler/parser/lexer/filters.py:90-98 | a composite whose list is split in two is the two halves run one after the other |
| Filters.ApplySubset | src/shtest_compiler/parser/lexer/filters.py:14-98 | any filter yields only tokens of its input, and no more of them |
| Filters.ApplyAllSubset | src/shtest_compiler/parser/lexer/filters.py:94-95 | so does any list of filters applied in order |
| Lifter.GlobalCompound | src/shtest_compiler/ast/shell_framework_binder.py:94-111 | a scoped check is global by its scope; a compound is global exactly when both sides are, a negation exactly when its child is, anything else is local |
| Lifter.LiftedChecks | src/shtest_compiler/ast/shell_framework_binder.py:71-74 | the checks lifted out of a block are exactly its global checks, in order, as standalone actions |
| Lifter.ProcessInlineShellCode | src/shtest_compiler/ast/shell_framework_binder.py:62-92 | the loop of `_process_inline_shell_code` gives the block of the remaining lines (only when there are some), then the lifted checks |
| Lifter.ProcessedPartition | src/shtest_compiler/ast/shell_framework_binder.py:70-80 | every line either stays with the action or is lifted: none is lost or added |
| Lifter.RetainSplit | src/shtest_compiler/ast/shell_framework_binder.py:70-80 | the lines that stay and the lines lifted add up to all lines |
| Lifter.LiftSteps | src/shtest_compiler/ast/shell_framework_binder.py:42-58 | every step keeps its name and validations and gets its lifted actions |
| Lifter.Lift | src/shtest_compiler/ast/shell_framework_binder.py:35-60 | `lift()` replaces each step's actions in place by their lifted form and leaves helpers and global code alone |
| Lifter.LiftAppend | src/shtest_compiler/ast/shell_framework_binder.py:45-56 | lifting works action by action, so it distributes over concatenation |
| Lifter.LiftKeepsOthers | src/shtest_compiler/ast/shell_framework_binder.py:52-54 | actions that are not inline code pass through unchanged |
| Lifter.LiftIdempotent | src/shtest_compiler/ast/shell_framework_binder.py:35-60 | lifting a lifted list changes nothing |
| Lifter.LiftOneStable | src/shtest_compiler/ast/shell_framework_binder.py:62-92 | what one action becomes is already lifted |
| Lifter.ProcessedStable | src/shtest_compiler/ast/shell_framework_binder.py:62-92 | a processed block is already lifted |
| Lifter.NoneLifted | src/shtest_compiler/ast/shell_framework_binder.py:70-80 | when every line stays local, nothing is lifted |
| Lifter.LiftSingle | src/shtest_compiler/ast/shell_framework_binder.py:45-56 | lifting a one-action list is lifting that action |
| Binder.FirstLocal | src/shtest_compiler/ast/shell_framework_binder.py:202-203 | the first validation whose scope is (or defaults to) `last_action`, and none exactly when there is no such validation |
| Binder.ScopeCheck | src/shtest_compiler/ast/shell_framework_binder.py:200-204 | `enforce_scope` passes exactly when no step without actions has a local validation, and otherwise raises the `ValueError` of the first such step |
| Binder.LinesOf | src/shtest_compiler/ast/shell_framework_binder.py:248-254 | a block's lines as text, a check giving its comment line and its command |
| Binder.CheckKeyedAsInline | src/shtest_compiler/ast/shell_framework_binder.py:261-263 | a check is keyed like an inline block holding only that check |
| Binder.KeyLines | src/shtest_compiler/ast/shell_framework_binder.py:255-280 | `key.split("\n")` gives back the block's lines when no line holds a newline |
| Binder.KeysOf | src/shtest_compiler/ast/shell_framework_binder.py:213-214 | one key per action, in order |
| Binder.AllKeysHas | src/shtest_compiler/ast/shell_framework_binder.py:212-214 | every action of every step has its key counted |
| Binder.SubstitutedBody | src/shtest_compiler/ast/shell_framework_binder.py:224 | every body line has each placeholder replaced by its positional variable |
| Binder.MakeHelper | src/shtest_compiler/ast/shell_framework_binder.py:220-225 | a helper named `helper_<n>` whose parameters and body come from the key |
| Binder.PlannedNames | src/shtest_compiler/ast/shell_framework_binder.py:218-227 | helpers are only appended, one per increment of the counter, named `helper_<n>` with consecutive numbers after the old counter |
| Binder.PlannedKeys | src/shtest_compiler/ast/shell_framework_binder.py:218-226 | a key is mapped afterwards exactly when it was before or it was counted more than once |
| Binder.PlannedFits | src/shtest_compiler/ast/shell_framework_binder.py:218-226 | every mapped key keeps the helper made for it |
| Binder.PlannedNamed | src/shtest_compiler/ast/shell_framework_binder.py:220-225 | every helper in the action map is named `helper_<n>` for some `n` from 1 to the counter |
| Binder.PlanStepFits | src/shtest_compiler/ast/shell_framework_binder.py:219-226 | one step of the loop keeps every mapped key's helper the one made for it |
| Binder.SetFits | src/shtest_compiler/ast/shell_framework_binder.py:226 | storing the helper made for a key keeps every mapped key's helper the one made for it |
| Binder.HelperIffRepeated | src/shtest_compiler/ast/shell_framework_binder.py:210-227 | for a new binder exactly the keys occurring more than once get a helper, each the one made for its key |
| Binder.ExtractArgs | src/shtest_compiler/ast/shell_framework_binder.py:284-311 | one argument per parameter, all empty for a call or an unknown node |
| Binder.CheckArgs | src/shtest_compiler/ast/shell_framework_binder.py:298-304 | a non-empty argument of a check is the value assigned to that name in its command |
| Binder.ExtractArgsFromAction | src/shtest_compiler/ast/shell_framework_binder.py:284-311 | the loops of `_extract_args_from_action` give exactly the arguments |
| Binder.FindAssign | src/shtest_compiler/ast/shell_framework_binder.py:289-296 | the search over the lines gives the first assignment found |
| Binder.RebindActions | src/shtest_compiler/ast/shell_framework_binder.py:229-234 | every action is rebound position by position |
| Binder.RebindSteps | src/shtest_compiler/ast/shell_framework_binder.py:229-234 | every step keeps its name and validations and gets its rebound actions |
| Binder.RepeatedBecomeCalls | src/shtest_compiler/ast/shell_framework_binder.py:206-234 | after binding, an action whose key occurs more than once is exactly `FunctionCall` of its key's helper, named `helper_<n>`, with the arguments `_extract_args` finds for that helper's parameters, which are the placeholders of the key; any other action is left as it was |
| Binder.ShellFrameworkBinder.constructor | src/shtest_compiler/ast/shell_framework_binder.py:118-121 | a new binder holds the tree, an empty action map and a counter at 0 |
| Binder.ShellFrameworkBinder.EnforceScope | src/shtest_compiler/ast/shell_framework_binder.py:200-204 | the loops of `enforce_scope` give exactly the scope check's outcome |
| Binder.ShellFrameworkBinder.RebindList | src/shtest_compiler/ast/shell_framework_binder.py:229-234 | the rebound actions of one step |
| Binder.ShellFrameworkBinder.CountOccurrences | src/shtest_compiler/ast/shell_framework_binder.py:210-216 | `occurrence_counter` counts every key of every action of every step |
| Binder.ShellFrameworkBinder.CountStep | src/shtest_compiler/ast/shell_framework_binder.py:213-215 | the inner counting loop of one step |
| Binder.ShellFrameworkBinder.NewHelper | src/shtest_compiler/ast/shell_framework_binder.py:221-225 | the helper made for a key from `_extract_params_and_body` and the substitution |
| Binder.ShellFrameworkBinder.CreateHelpers | src/shtest_compiler/ast/shell_framework_binder.py:218-227 | step 2 of `bind` updates the map, counter and helpers as planned and leaves the steps alone |
| Binder.ShellFrameworkBinder.ReplaceRepeated | src/shtest_compiler/ast/shell_framework_binder.py:228-234 | step 3 of `bind` rebinds every step's actions and leaves the helpers alone |
| Binder.ShellFrameworkBinder.Bind | src/shtest_compiler/ast/shell_framework_binder.py:206-243 | `bind` raises the scope error and changes nothing, or applies steps 1 to 3: helpers for the repeated keys and calls in their place |
| BinderText.WordRun | src/shtest_compiler/ast/shell_framework_binder.py:273 | the leading run of `\w` characters of a text |
| BinderText.Matches | src/shtest_compiler/ast/shell_framework_binder.py:273 | `re.findall(r'\{(\w+)\}', line)` finds only words |
| BinderText.WordRunOf | src/shtest_compiler/ast/shell_framework_binder.py:273 | a word followed by a non-word character is a run of exactly that word |
| BinderText.PlaceholderFound | src/shtest_compiler/ast/shell_framework_binder.py:273 | `{w}` is found and the search resumes right after it |
| BinderText.NoBraceNoMatch | src/shtest_compiler/ast/shell_framework_binder.py:273 | a line without `{` has no placeholder |
| BinderText.AllMatchesMembers | src/shtest_compiler/ast/shell_framework_binder.py:272-276 | a word is among the matches of the lines exactly when some line holds it |
| BinderText.PlaceholdersFacts | src/shtest_compiler/ast/shell_framework_binder.py:269-277 | the parameters are exactly the placeholders found in the lines, each a word, none twice |
| BinderText.ExtractParamPlaceholders | src/shtest_compiler/ast/shell_framework_binder.py:269-277 | the loop with its `seen` set gives exactly those parameters, in first-seen order |
| BinderText.SubstituteParams | src/shtest_compiler/ast/shell_framework_binder.py:328-331 | the loop of `_substitute_params` gives the line with each `{p}` replaced in turn |
| BinderText.SubstituteBraceFree | src/shtest_compiler/ast/shell_framework_binder.py:328-331 | a line without `{` comes out unchanged |
| BinderText.FirstOfOccurrence | src/shtest_compiler/ast/shell_framework_binder.py:330 | an occurrence of a pattern starts with the pattern's first character |
| BinderText.ValueRun | src/shtest_compiler/ast/shell_framework_binder.py:293 | the leading run of `[\w\./-]` characters |
| BinderText.SearchAssign | src/shtest_compiler/ast/shell_framework_binder.py:293-295 | a found value is a non-empty run of value characters that follows `p=` in the text |
| BinderText.AssignFound | src/shtest_compiler/ast/shell_framework_binder.py:293-295 | a text that is `p=v` gives `v` |
| BinderText.ValueRunAll | src/shtest_compiler/ast/shell_framework_binder.py:293 | a run of value characters is read in full |
| ShtestVisitor.KeyIgnoresLine | src/shtest_compiler/ast/shtest_to_shellframework_visitor.py:92-93 | the key `(command or "", result_expr or "")` ignores the action's line and does not tell a missing part from an empty one |
| ShtestVisitor.ActionKeys | src/shtest_compiler/ast/shtest_to_shellframework_visitor.py:20-21 | one key per action, in order |
| ShtestVisitor.StepKeysHas | src/shtest_compiler/ast/shtest_to_shellframework_visitor.py:19-22 | every action of every step has its key counted |
| ShtestVisitor.NamedSnoc | src/shtest_compiler/ast/shtest_to_shellframework_visitor.py:24-27 | naming one more counter entry is one more step of the naming loop |
| ShtestVisitor.Numbered | src/shtest_compiler/ast/shtest_to_shellframework_visitor.py:26-27 | the repeated entries numbered after the counter, by position |
| ShtestVisitor.NamedFromEmpty | src/shtest_compiler/ast/shtest_to_shellframework_visitor.py:24-27 | starting without names, the repeated keys are named `helper_<c+1>`, `helper_<c+2>`, ... in counter order and the counter grows by their number |
| ShtestVisitor.PopValid | src/shtest_compiler/ast/shtest_to_shellframework_visitor.py:24 | without its last entry a table stays well formed and that key is new to it |
| ShtestVisitor.NumberedKeysFrom | src/shtest_compiler/ast/shtest_to_shellframework_visitor.py:24-27 | a key absent from the counter is never named |
| ShtestVisitor.NumberedSnoc | src/shtest_compiler/ast/shtest_to_shellframework_visitor.py:26-27 | numbering one more repeated entry gives it the next number |
| ShtestVisitor.BuiltHelpers | src/shtest_compiler/ast/shtest_to_shellframework_visitor.py:29-38 | one helper per named key, in order, with no parameters and its compiled body, up to the first exception of `compile_atomic` |
| ShtestVisitor.CodeLines | src/shtest_compiler/ast/shtest_to_shellframework_visitor.py:50-53 | every line becomes a line of code |
| ShtestVisitor.BuildActions | src/shtest_compiler/ast/shtest_to_shellframework_visitor.py:43-53 | the nodes of a step's actions succeed exactly when each action's node does, and otherwise fail with the first exception |
| ShtestVisitor.BuildStep | src/shtest_compiler/ast/shtest_to_shellframework_visitor.py:41-54 | a step keeps its name and its number of actions and has no validations |
| ShtestVisitor.BuiltSteps | src/shtest_compiler/ast/shtest_to_shellframework_visitor.py:40-54 | the steps built in order, up to the step whose action raises |
| ShtestVisitor.FreshNames | src/shtest_compiler/ast/shtest_to_shellframework_visitor.py:9-27 | a new visitor names the keys that occur more than once, in order of first occurrence, `helper_1`, `helper_2`, ... |
| ShtestVisitor.FreshNamed | src/shtest_compiler/ast/shtest_to_shellframework_visitor.py:19-27 | a new visitor names exactly the keys that occur more than once |
| ShtestVisitor.NamedCall | src/shtest_compiler/ast/shtest_to_shellframework_visitor.py:45-46 | an action whose key is named becomes a call without arguments to that name |
| ShtestVisitor.UnnamedInline | src/shtest_compiler/ast/shtest_to_shellframework_visitor.py:47-53 | an action whose key is not named becomes inline code; without a result it is the announcement and the `run_action` of its command |
| ShtestVisitor.FreshActionNode | src/shtest_compiler/ast/shtest_to_shellframework_visitor.py:17-54 | for a new visitor, an action whose key occurs more than once becomes a call to one of the helpers and any other becomes inline code |
| ShtestVisitor.ShtestToShellFrameworkVisitor.constructor | src/shtest_compiler/ast/shtest_to_shellframework_visitor.py:9-15 | a new visitor has an empty counter, no names, counter 0 and nothing built |
| ShtestVisitor.ShtestToShellFrameworkVisitor.CountActions | src/shtest_compiler/ast/shtest_to_shellframework_visitor.py:18-22 | the first pass counts every action's key into the counter and changes nothing else |
| ShtestVisitor.ShtestToShellFrameworkVisitor.CountStep | src/shtest_compiler/ast/shtest_to_shellframework_visitor.py:20-22 | the counting loop of one step |
| ShtestVisitor.ShtestToShellFrameworkVisitor.AssignNames | src/shtest_compiler/ast/shtest_to_shellframework_visitor.py:23-27 | every key counted more than once gets the next number; nothing else changes |
| ShtestVisitor.ShtestToShellFrameworkVisitor.BuildHelpers | src/shtest_compiler/ast/shtest_to_shellframework_visitor.py:28-38 | the helpers are appended, up to the first exception |
| ShtestVisitor.ShtestToShellFrameworkVisitor.BuildSteps | src/shtest_compiler/ast/shtest_to_shellframework_visitor.py:39-54 | the steps are appended, up to the first exception |
| ShtestVisitor.ShtestToShellFrameworkVisitor.BuildOneStep | src/shtest_compiler/ast/shtest_to_shellframework_visitor.py:41-54 | the loop over one step's actions |
| ShtestVisitor.ShtestToShellFrameworkVisitor.VisitShtestFile | src/shtest_compiler/ast/shtest_to_shellframework_visitor.py:17-87 | `visit_shtestfile` counts, names, builds helpers and steps and sets the prologue; an exception ends the visit with what was built before it kept |
| ShtestVisitor.BuiltHelpersFailed | src/shtest_compiler/ast/shtest_to_shellframework_visitor.py:29-38 | once a helper's body raised, the remaining keys change nothing |
| ShtestVisitor.BuiltStepsFailed | src/shtest_compiler/ast/shtest_to_shellframework_visitor.py:40-54 | once a step raised, the remaining steps change nothing |
| ShtestVisitor.AllBuilt | src/shtest_compiler/ast/shtest_to_shellframework_visitor.py:43-53 | actions that all build give the list of their nodes |
| ShtestVisitor.FirstActionFails | src/shtest_compiler/ast/shtest_to_shellframework_visitor.py:43-53 | the first action that raises decides the failure |
| VerifySyntax.IsActionsEmpty | src/shtest_compiler/verify_syntax.py:8-18 | `_is_actions_empty` holds exactly when no value is truthy; its `batch_path` branch decides as the other does |
| VerifySyntax.ValidateActions | src/shtest_compiler/verify_syntax.py:29-46 | `validate_actions` gives whether a line was recognised and the errors after it |
| VerifySyntax.ReportExprs | src/shtest_compiler/verify_syntax.py:38-44 | the loop appends one error per validation expression that does not parse, in order |
| VerifySyntax.CheckFile | src/shtest_compiler/verify_syntax.py:49-108 | `check_file` over the lexed tokens gives exactly the checked errors, or the exception that escapes it |
| VerifySyntax.CheckToken | src/shtest_compiler/verify_syntax.py:60-101 | the loop body for one token |
| VerifySyntax.FedSnoc | src/shtest_compiler/verify_syntax.py:60-101 | the state after `i+1` tokens is one token's step after the state after `i` |
| VerifySyntax.FedFails | src/shtest_compiler/verify_syntax.py:60-101 | once a prefix raises, the whole check raises the same exception |
| VerifySyntax.ValidatedGrows | src/shtest_compiler/verify_syntax.py:29-46 | checking a line only appends errors |
| VerifySyntax.FeedGrows | src/shtest_compiler/verify_syntax.py:63-101 | a token only appends errors, behind the one for a pending `action_only` |
| VerifySyntax.FedPrefix | src/shtest_compiler/verify_syntax.py:60-101 | a check that does not raise went through every prefix, whose errors begin the whole's |
| VerifySyntax.LastStep | src/shtest_compiler/verify_syntax.py:72-79 | the index of the last step token, if any |
| VerifySyntax.LastStepAt | src/shtest_compiler/verify_syntax.py:72-79 | a step with no step after it before position `m` is the last step of the first `m` tokens |
| VerifySyntax.FedStep | src/shtest_compiler/verify_syntax.py:77-78 | `current_step_lineno` and `current_step_name` are those of the last step |
| VerifySyntax.FedPending | src/shtest_compiler/verify_syntax.py:64-96 | the last token is pending exactly when it is an `action_only` of a known kind |
| VerifySyntax.FedHasAction | src/shtest_compiler/verify_syntax.py:79-92 | `step_has_action` holds exactly when a token since the last step was recognised |
| VerifySyntax.Kept | src/shtest_compiler/verify_syntax.py:60-108 | a report made at any token survives to the result |
| VerifySyntax.KeptFed | src/shtest_compiler/verify_syntax.py:60-108 | the errors of a prefix survive to the result |
| VerifySyntax.NotFollowedReported | src/shtest_compiler/verify_syntax.py:63-70 | an `action_only` followed by a token that is not a `result_only` is reported |
| VerifySyntax.NoStepReported | src/shtest_compiler/verify_syntax.py:85-88 | an action or result line before any step is reported as lacking a step |
| VerifySyntax.UnknownReported | src/shtest_compiler/verify_syntax.py:100-101 | a token of a kind without a line format is reported with its value |
| VerifySyntax.OpenStepWithoutAction | src/shtest_compiler/verify_syntax.py:72-92 | after a step none of whose tokens is recognised, that step is current and has no action |
| VerifySyntax.StepWithoutActionReported | src/shtest_compiler/verify_syntax.py:72-106 | a step (on a line other than 0) none of whose tokens is recognised is reported at the next step or the end |
| VerifySyntax.ClosedByNextStep | src/shtest_compiler/verify_syntax.py:72-76 | the next step reports the current step when it has no action |
| VerifySyntax.StepClosedAt | src/shtest_compiler/verify_syntax.py:72-76 | the same, for the state right after that step token |
| VerifySyntax.FeedClosesStep | src/shtest_compiler/verify_syntax.py:72-76 | a step token reports the current step when it has no action |
| VerifySyntax.EmptyValidation | src/shtest_compiler/verify_syntax.py:29-46 | with a parser that gives one truthy action and no expression, a line is recognised without errors |
| VerifySyntax.TrailingActionUnreported | src/shtest_compiler/verify_syntax.py:63-108 | a file ending with an `action_only` gives no error as written, where the intended check reports it |
| VerifySyntax.IntendedReportsEvery | src/shtest_compiler/verify_syntax.py:52-53 | with the end of the file treated as a non-result token, every `action_only` not followed by a `result_only` is reported |
| Context.CompileContext.constructor | src/shtest_compiler/core/context.py:11-18 | `counter or [0]` and `last_file_var or [None]`: a missing or empty list is replaced by a fresh cell; variables and metadata start empty |
| Context.CompileContext.Reset | src/shtest_compiler/core/context.py:20-25 | `reset` puts back fresh cells and empties both tables, keeping `verbose` |
| Context.CompileContext.IncrementCounter | src/shtest_compiler/core/context.py:31-34 | the counter cell goes up by one and the new value is returned; nothing else changes |
| Context.CompileContext.SetLastFileVar | src/shtest_compiler/core/context.py:36-38 | the first cell of `last_file_var` reads back as the value; nothing else changes |
| Context.CompileContext.SetVariable | src/shtest_compiler/core/context.py:44-46 | `variables[name] = value`; nothing else changes |
| Context.CompileContext.SetMetadata | src/shtest_compiler/core/context.py:52-54 | `metadata[key] = value`; nothing else changes |
| Context.CompileContext.GetConditionVar | src/shtest_compiler/core/context.py:60-64 | the name is `cond` and the counter's value before the call, and the counter moves on by one |
| Context.CondName | src/shtest_compiler/core/context.py:62 | `f"cond{n}"` starts with `cond` and carries a number |
| Context.CondNamesDistinct | src/shtest_compiler/core/context.py:60-64 | different counter values give different names, so successive condition variables differ |
| Context.VariableLookup | src/shtest_compiler/core/context.py:44-58 | a variable or metadata key reads back as the last value set, a missing one as the default, and setting one leaves the others |
| ActionUtils.NameRun | src/shtest_compiler/compiler/action_utils.py:86-101 | the leading run of name characters (`[^}]` or `\w`) |
| ActionUtils.MatchLen | src/shtest_compiler/compiler/action_utils.py:86-101 | a match is a braced name of at least one character |
| ActionUtils.Shift | src/shtest_compiler/compiler/action_utils.py:86-101 | spans moved by an offset |
| ActionUtils.ChainedShift | src/shtest_compiler/compiler/action_utils.py:101 | chained matches stay chained behind a prefix |
| ActionUtils.ChainedLater | src/shtest_compiler/compiler/action_utils.py:101 | chained matches after a position are chained after any earlier one |
| ActionUtils.ScanChained | src/shtest_compiler/compiler/action_utils.py:86-101 | `re.finditer` gives non-overlapping matches, left to right |
| ActionUtils.ChainedAfterMatch | src/shtest_compiler/compiler/action_utils.py:101 | a match followed by chained matches is chained |
| ActionUtils.ChainedAfterSkip | src/shtest_compiler/compiler/action_utils.py:101 | skipping a character keeps the matches chained |
| ActionUtils.Groups | src/shtest_compiler/compiler/action_utils.py:87 | one group per match: the text between its braces |
| ActionUtils.ChainedWithin | src/shtest_compiler/compiler/action_utils.py:101 | chained matches lie within the text |
| ActionUtils.GroupsStep | src/shtest_compiler/compiler/action_utils.py:87 | the groups of a list of matches are the first one's group and the rest's |
| ActionUtils.ExtractVariablesFromPattern | src/shtest_compiler/compiler/action_utils.py:84-88 | the loop gives exactly the groups of `\{([^}]+)\}`, in order |
| ActionUtils.UnescapeEscape | src/shtest_compiler/compiler/action_utils.py:105-111 | `re.escape` loses nothing: the quoted text reads back as the text |
| ActionUtils.EscapeAppend | src/shtest_compiler/compiler/action_utils.py:105-111 | quoting works character by character |
| ActionUtils.ChainedStep | src/shtest_compiler/compiler/action_utils.py:101-108 | each match starts after `pos` and the next is chained after its end |
| ActionUtils.BuildRegexFromPattern | src/shtest_compiler/compiler/action_utils.py:91-117 | `build_regex_from_pattern` gives exactly the anchored translation, with `(?i)` when not case sensitive |
| ActionUtils.RegexParts | src/shtest_compiler/compiler/action_utils.py:99-111 | the loop collects the parts whose join is the pattern's translation |
| ActionUtils.AddPlaceholder | src/shtest_compiler/compiler/action_utils.py:102-108 | one match adds the quoted text since `pos` when there is some, then `(.+)`, and moves `pos` to its end |
| ActionUtils.ScanLit | src/shtest_compiler/compiler/action_utils.py:86-101 | text without `{` holds no match |
| ActionUtils.NameRunOf | src/shtest_compiler/compiler/action_utils.py:86-101 | a name followed by a non-name character is read in full |
| ActionUtils.ScanHole | src/shtest_compiler/compiler/action_utils.py:86-101 | a placeholder is one match and the search resumes after it |
| ActionUtils.GroupsShift | src/shtest_compiler/compiler/action_utils.py:87 | the groups of matches do not change behind a prefix |
| ActionUtils.NamesOfPieces | src/shtest_compiler/compiler/action_utils.py:86-87 | the names found in a pattern of text and placeholders are its placeholders, in order |
| ActionUtils.NamesAfterLit | src/shtest_compiler/compiler/action_utils.py:86-87 | text without `{` adds no name |
| ActionUtils.NamesAfterHole | src/shtest_compiler/compiler/action_utils.py:86-87 | a placeholder adds its name |
| ActionUtils.VariablesOfPieces | src/shtest_compiler/compiler/action_utils.py:84-88 | `extract_variables_from_pattern` of such a pattern is its placeholder names, in order |
| ActionUtils.WordPiecesPlain | src/shtest_compiler/compiler/action_utils.py:86-101 | a `{word}` placeholder is also one for `\{([^}]+)\}` |
| ActionUtils.WordNamesAgree | src/shtest_compiler/compiler/action_utils.py:84-101 | on a pattern whose placeholders are words both regexes find the same names |
| ActionUtils.BodyDrop | src/shtest_compiler/compiler/action_utils.py:101-111 | translating a suffix in place is translating it on its own |
| ActionUtils.GapDrop | src/shtest_compiler/compiler/action_utils.py:104-105 | the quoted gap of a suffix is the same in place |
| ActionUtils.BodyCons | src/shtest_compiler/compiler/action_utils.py:101-111 | a match put in front moves every index by one |
| ActionUtils.GapLit | src/shtest_compiler/compiler/action_utils.py:104-105 | text in front is quoted before the first gap |
| ActionUtils.BodyAfterLit | src/shtest_compiler/compiler/action_utils.py:99-111 | text without a brace is quoted in front of the rest's regex |
| ActionUtils.LitBeforeText | src/shtest_compiler/compiler/action_utils.py:110-111 | with no match, text in front is quoted with the rest |
| ActionUtils.LitBeforeMatch | src/shtest_compiler/compiler/action_utils.py:104-105 | text in front joins the first gap |
| ActionUtils.LitBeforeFirst | src/shtest_compiler/compiler/action_utils.py:102-108 | the first match after quoted text gives its gap and `(.+)` |
| ActionUtils.BodyDropLit | src/shtest_compiler/compiler/action_utils.py:101-111 | after the first match a prefix no longer matters |
| ActionUtils.BodyFirst | src/shtest_compiler/compiler/action_utils.py:102-108 | the first match gives its gap, then `(.+)`, then the rest from its end |
| ActionUtils.BodyAfterHole | src/shtest_compiler/compiler/action_utils.py:107 | a placeholder becomes one capturing group |
| ActionUtils.BodyOfPieces | src/shtest_compiler/compiler/action_utils.py:99-111 | the regex of a pattern quotes its text and captures each placeholder |
| ActionUtils.RegexOfPieces | src/shtest_compiler/compiler/action_utils.py:113-117 | the regex is the anchored translation, prefixed `(?i)` exactly when case is ignored |
| ActionUtils.MatchPatternWithVariables | src/shtest_compiler/compiler/action_utils.py:120-138 | `match_pattern_with_variables` gives `None` without a match and otherwise the bound variables |
| ActionUtils.BoundValid | src/shtest_compiler/compiler/action_utils.py:133-136 | the result has no key twice |
| ActionUtils.BoundKeys | src/shtest_compiler/compiler/action_utils.py:134-136 | a name is bound exactly when some variable of that name has a group |
| ActionUtils.MatchedKeys | src/shtest_compiler/compiler/action_utils.py:120-138 | no match gives `None`; a match binds exactly the extracted variables whose position has a group |
| ActionUtils.BoundLast | src/shtest_compiler/compiler/action_utils.py:134-136 | a name holds the group of its last variable that has one |
| ActionUtils.IntendedBindsOwnGroup | src/shtest_compiler/compiler/action_utils.py:84-138 | the corrected binding gives each placeholder the group its own placeholder captured |
| ActionUtils.AgreeOnWordPatterns | src/shtest_compiler/compiler/action_utils.py:84-138 | on patterns whose placeholders are all words the source's binding is the corrected one |
| ActionUtils.ScanOtherHole | src/shtest_compiler/compiler/action_utils.py:101 | a braced name starting outside `\w` is only text to the `{word}` search |
| ActionUtils.MixedPatternScan | src/shtest_compiler/compiler/action_utils.py:101 | in `{-}{c}` the only `{word}` match is `{c}` |
| ActionUtils.MixedPatternNames | src/shtest_compiler/compiler/action_utils.py:84-101 | its regex has one group while both braced names are variables |
| ActionUtils.MixedPatternRegex | src/shtest_compiler/compiler/action_utils.py:91-117 | its regex quotes `{-}` and captures `{c}` |
| ActionUtils.MisalignedGroups | src/shtest_compiler/compiler/action_utils.py:130-136 | given a match, the source binds `c`'s group to `-`, where the corrected binding gives it to `c` |
| ActionContext.MethodGet | src/shtest_compiler/compiler/action_utils.py:559-563 | `.get(key, default)` succeeds exactly on a dict |
| ActionContext.Validated | src/shtest_compiler/compiler/action_utils.py:544-579 | the first component is `True` exactly when there are no errors |
| ActionContext.ValidateActionContext | src/shtest_compiler/compiler/action_utils.py:544-579 | `validate_action_context`'s loops give exactly the result or the exception |
| ActionContext.CheckRequired | src/shtest_compiler/compiler/action_utils.py:563-568 | the loop over `required_variables` gives exactly its errors |
| ActionContext.CheckRules | src/shtest_compiler/compiler/action_utils.py:570-578 | the loop over `variables.items()` gives exactly its errors |
| ActionContext.RequiredFailsLater | src/shtest_compiler/compiler/action_utils.py:564-568 | an exception on some name ends the loop with it |
| ActionContext.RulesFailLater | src/shtest_compiler/compiler/action_utils.py:570-578 | an exception on some variable ends the loop with it |
| ActionContext.FieldErrorsHeaded | src/shtest_compiler/compiler/action_utils.py:554 | field errors start with `M` |
| ActionContext.RequiredErrorsHeaded | src/shtest_compiler/compiler/action_utils.py:566-568 | required-variable errors start with `H` |
| ActionContext.RuleErrorsHeaded | src/shtest_compiler/compiler/action_utils.py:576-578 | pattern errors start with `V` |
| ActionContext.MissingFieldInjective | src/shtest_compiler/compiler/action_utils.py:554 | different fields give different messages |
| ActionContext.FieldErrorsReport | src/shtest_compiler/compiler/action_utils.py:552-554 | a field is reported exactly when it is checked and absent |
| ActionContext.ValidatedReportsField | src/shtest_compiler/compiler/action_utils.py:549-579 | `Missing required field` is reported exactly for `action` and `handler` when the context lacks them |
| ActionContext.RequiresVariableInjective | src/shtest_compiler/compiler/action_utils.py:566-568 | different names give different messages |
| ActionContext.RequiredReport | src/shtest_compiler/compiler/action_utils.py:564-568 | a name is reported exactly when some listed entry that reads as it is not among the variables |
| ActionContext.ValidatedReportsVariable | src/shtest_compiler/compiler/action_utils.py:559-568 | for a list of `required_variables`, exactly the listed names the variables lack are reported |
| ActionContext.RuleErrorReport | src/shtest_compiler/compiler/action_utils.py:571-578 | a variable gives one mismatch error exactly when its rule's truthy pattern does not match its value, and none otherwise |
| ActionContext.RuleErrorsSound | src/shtest_compiler/compiler/action_utils.py:570-578 | every pattern error is the mismatch of some variable against its rule |
| ActionContext.RuleErrorsComplete | src/shtest_compiler/compiler/action_utils.py:570-578 | every variable that violates its rule is reported |
| RuleRegistry.GroupOf | src/shtest_compiler/parser/rule_registry.py:83-86 | `match.group(idx)` is the group, or `IndexError` for an index outside 0 to the number of groups |
| RuleRegistry.MakeHandler | src/shtest_compiler/parser/rule_registry.py:76-78 | the first word of the spec names the handler and is a word; a blank spec raises `IndexError` |
| RuleRegistry.DoubleBraced | src/shtest_compiler/parser/rule_registry.py:81-82 | a token that starts with `{{` and ends with `}}` holds at least four characters |
| RuleRegistry.SingleBraced | src/shtest_compiler/parser/rule_registry.py:84-85 | a token that starts with `{` and ends with `}` holds at least two characters |
| RuleRegistry.Invoke | src/shtest_compiler/parser/rule_registry.py:89-91 | the handler succeeds exactly when its arguments can be computed and its name is in the map; a missing name raises `KeyError` after the arguments are computed |
| RuleRegistry.MakeHandlerWords | src/shtest_compiler/parser/rule_registry.py:76-78 | a spec of non-blank words joined by spaces reads back as its name and argument specs |
| RuleRegistry.MakeHandlerBlank | src/shtest_compiler/parser/rule_registry.py:76-77 | a spec makes no handler exactly when it is blank |
| RuleRegistry.NatText | src/shtest_compiler/parser/rule_registry.py:82-85 | a written number reads back with `int` and is not wrapped in braces |
| RuleRegistry.OptionalArg | src/shtest_compiler/parser/rule_registry.py:81-83 | `{{n}}` is group `n` when `n` is at most `lastindex`, `None` past it, and a `TypeError` when `lastindex` is `None` |
| RuleRegistry.PositionalArg | src/shtest_compiler/parser/rule_registry.py:84-86 | `{n}` is group `n` |
| RuleRegistry.SingleBraceArg | src/shtest_compiler/parser/rule_registry.py:84-86 | a single-braced token is the group its text reads as |
| RuleRegistry.LiteralArg | src/shtest_compiler/parser/rule_registry.py:87 | a token not wrapped in braces is passed through |
| RuleRegistry.BracesNest | src/shtest_compiler/parser/rule_registry.py:81-84 | a double-braced token is also single-braced, so the first test is the one that holds |
| RuleRegistry.ArgsEach | src/shtest_compiler/parser/rule_registry.py:90 | one argument per spec, in order, unless one raises |
| RuleRegistry.LoadDefaultRules | src/shtest_compiler/parser/rule_registry.py:56-63 | the loop of `load_default_rules` gives exactly the loaded rules or the first exception |
| RuleRegistry.LoadedEach | src/shtest_compiler/parser/rule_registry.py:56-63 | one rule per entry in order exactly when every entry has one; otherwise the first failing entry's exception |
| RuleRegistry.RuleOfEntry | src/shtest_compiler/parser/rule_registry.py:59-62 | an entry's rule is its pattern and the handler its spec makes; a missing `pattern` raises `KeyError` |
| RuleRegistry.WithScriptsDedup | src/shtest_compiler/parser/rule_registry.py:48-53 | appending the scripts one by one, skipping listed ones, is deduplicating the old list followed by the new scripts |
| RuleRegistry.WithScriptsProps | src/shtest_compiler/parser/rule_registry.py:48-53 | no script is listed twice, old scripts stay in place and every new one is listed |
| RuleRegistry.WithScriptsGrows | src/shtest_compiler/parser/rule_registry.py:51-53 | the old list is a prefix of the new one |
| RuleRegistry.WithScriptsIdempotent | src/shtest_compiler/parser/rule_registry.py:48-53 | adding the same scripts again changes nothing |
| RuleRegistry.WithScriptsListed | src/shtest_compiler/parser/rule_registry.py:52 | scripts already listed add nothing |
| RuleRegistry.ActionTable.constructor | src/shtest_compiler/parser/rule_registry.py:48 | the action table holds the given `sql_scripts` |
| RuleRegistry.ActionTable.SqlScriptSingle | src/shtest_compiler/parser/rule_registry.py:25-27 | `sql_script_single` appends the script unless it is listed |
| RuleRegistry.ActionTable.HandleSqlScriptText | src/shtest_compiler/parser/rule_registry.py:48-53 | every `*.sql` word of the line not listed yet is appended, in order |
| Plugins.Host.constructor | src/shtest_compiler/plugins/__init__.py:46-82 | the host holds the grammar, AST builder and matcher registries a plugin installs into |
| Plugins.PluginRegistry.constructor | src/shtest_compiler/plugins/__init__.py:93-95 | a new registry has no plugin |
| Plugins.PluginRegistry.Register | src/shtest_compiler/plugins/__init__.py:97-99 | a plugin is stored under its name; the same name again replaces it in place |
| Plugins.PluginRegistry.Unregister | src/shtest_compiler/plugins/__init__.py:101-104 | the name is removed when present, nothing else changes |
| Plugins.PluginRegistry.Get | src/shtest_compiler/plugins/__init__.py:126-128 | `get` is `None` exactly for an unregistered name |
| Plugins.PluginRegistry.List | src/shtest_compiler/plugins/__init__.py:122-124 | `list` holds exactly the registered names |
| Plugins.PluginRegistry.Install | src/shtest_compiler/plugins/__init__.py:106-112 | an unknown name raises `KeyError` and changes nothing; a known one has its plugin's `install` run on the host: the registry of its kind gets the entry under its name (a known name keeping its place), or raises `ValueError` and keeps its entries, and the other two registries are unchanged |
| Plugins.PluginRegistry.InstallPlugin | src/shtest_compiler/plugins/__init__.py:30-82 | the base class's `install` raises `NotImplementedError` and changes nothing; a grammar or builder plugin sets its class under its name in that registry, whose default stays, or raises the registry's `ValueError` for a non-conforming class; a matcher plugin sets the matcher under its key; the two other registries are unchanged |
| Plugins.PluginRegistry.Uninstall | src/shtest_compiler/plugins/__init__.py:114-120 | an unknown name raises `KeyError`; a known one has its plugin's `uninstall` run on the host |
| Plugins.PluginRegistry.UninstallPlugin | src/shtest_compiler/plugins/__init__.py:34-87 | only the base class's `uninstall` raises (`NotImplementedError`); a grammar, builder or matcher plugin leaves the host unchanged |
| ShellEscape.EscapeChars | src/shtest_compiler/utils/canonicalization.py:44 | escaping never shortens a string |
| ShellEscape.ReplaceIsEscape | src/shtest_compiler/utils/canonicalization.py:44 | `s.replace("'", "'\\''")` is the escaping of each character |
| ShellEscape.ShellEscape | src/shtest_compiler/utils/canonicalization.py:40-44 | `None` gives the empty string, anything else a word wrapped in single quotes |
| ShellEscape.NoQuoteWrapped | src/shtest_compiler/utils/canonicalization.py:44 | a string without a quote is only wrapped |
| ShellEscape.ReadEscaped | src/shtest_compiler/utils/canonicalization.py:44 | the shell reads an escaped string in quotes back as the string |
| ShellEscape.EscapeRoundTrip | src/shtest_compiler/utils/canonicalization.py:40-44 | the shell reads the escaped word back as the original string |
| SqlDrivers.DriverNamed | src/shtest_compiler/compiler/sql_drivers.py:5-10 | a driver exists exactly for `oracle`, `postgres`, `mysql` and `redis` |
| SqlDrivers.GetSqlCommand | src/shtest_compiler/compiler/sql_drivers.py:12-20 | the lowered driver name has a command, or `ValueError("Unsupported SQL driver: …")` |
| SqlDrivers.CaseInsensitive | src/shtest_compiler/compiler/sql_drivers.py:17 | the driver name's case does not matter |
| SqlDrivers.CommandShape | src/shtest_compiler/compiler/sql_drivers.py:5-10 | every command ends with the script; only Oracle's uses the connection, as `sqlplus -s <conn> @<script>` |
| CoreAst.MakeOperator | src/shtest_compiler/core/ast.py:110-118 | `OperateurLogique(op)` succeeds exactly for `et` and `ou`, and otherwise raises `ValueError` with the operator |
| CoreAst.OperatorRoundTrip | src/shtest_compiler/core/ast.py:110-118 | a built operator builds again from its text |
| CoreAst.ExpressionLogique.constructor | src/shtest_compiler/core/ast.py:82-87 | a new expression has no terms and no operators |
| CoreAst.ExpressionLogique.AddTerm | src/shtest_compiler/core/ast.py:89-93 | the term is always appended; the operator only when one is given and a term precedes it |
| CoreAst.GrownShape | src/shtest_compiler/core/ast.py:89-93 | terms are kept in order, the operators are those of the calls after the first, never more than one fewer than the terms |
| CoreAst.Program.constructor | src/shtest_compiler/core/ast.py:13-17 | a new program has no lines |
| CoreAst.Program.AddLine | src/shtest_compiler/core/ast.py:19-21 | the line is appended and the old lines keep their order |
| CoreAst.ParseErrorText | src/shtest_compiler/core/ast.py:139-140 | `str(ParseError)` starts with the line number and message and ends with the line content |
| Matchers.FirstResult | src/shtest_compiler/compiler/matcher_registry.py:15-23 | the first non-`None` result of the matchers tried in order, and `None` exactly when every one gives `None` |
| Matchers.FunctionRegistry.constructor | src/shtest_compiler/compiler/matcher_registry.py:4 | the table starts empty |
| Matchers.FunctionRegistry.RegisterMatcher | src/shtest_compiler/compiler/matcher_registry.py:6-13 | the function is stored under the name, replacing an earlier one, and returned unchanged |
| Matchers.FunctionRegistry.RunMatcher | src/shtest_compiler/compiler/matcher_registry.py:15-23 | the loop of `run_matcher` gives the first non-`None` result over the table's functions |
| Matchers.KeyOf | src/shtest_compiler/compiler/matcher_registry.py:34-38 | a matcher is filed under its `name` attribute, else under its class name |
| Matchers.Runnable | src/shtest_compiler/compiler/matcher_registry.py:50-51 | only matchers with a `match` method are tried |
| Matchers.RunnableMembers | src/shtest_compiler/compiler/matcher_registry.py:50-51 | a matcher is tried exactly when it has `match` |
| Matchers.MatcherRegistry.constructor | src/shtest_compiler/compiler/matcher_registry.py:29-30 | a new registry has no matcher |
| Matchers.MatcherRegistry.Register | src/shtest_compiler/compiler/matcher_registry.py:32-38 | the matcher is stored under its key and reads back from it |
| Matchers.MatcherRegistry.Get | src/shtest_compiler/compiler/matcher_registry.py:40-42 | `get` is `None` exactly for an unregistered name |
| Matchers.MatcherRegistry.List | src/shtest_compiler/compiler/matcher_registry.py:44-46 | `list` holds exactly the registered names |
| Matchers.MatcherRegistry.RunMatcher | src/shtest_compiler/compiler/matcher_registry.py:48-55 | the first non-`None` result among the matchers that have `match` |
| ShellFrameworkEmitter.Texts | src/shtest_compiler/compiler/shell_framework_emitter.py:15 | the global code lines become items of `lines`, in order |
| ShellFrameworkEmitter.Quoted | src/shtest_compiler/compiler/shell_framework_emitter.py:30-36 | each argument wrapped in double quotes, in order |
| ShellFrameworkEmitter.Strings | src/shtest_compiler/compiler/shell_framework_emitter.py:43 | a list holding only strings gives back its strings |
| ShellFrameworkEmitter.FirstCheck | src/shtest_compiler/compiler/shell_framework_emitter.py:43 | the first item that is a validation check rather than a string, none exactly when all are strings |
| ShellFrameworkEmitter.JoinLines | src/shtest_compiler/compiler/shell_framework_emitter.py:43 | `"\n".join(lines)` succeeds exactly when every item is a string |
| ShellFrameworkEmitter.EmitShellScript | src/shtest_compiler/compiler/shell_framework_emitter.py:12-43 | `emit_shell_script`'s loops give exactly the emitted script, or the `TypeError` of the join |
| ShellFrameworkEmitter.AddHelpers | src/shtest_compiler/compiler/shell_framework_emitter.py:18-24 | the helper loop appends each helper's lines, in order |
| ShellFrameworkEmitter.AddSteps | src/shtest_compiler/compiler/shell_framework_emitter.py:26-40 | the step loop appends each step's lines, in order |
| ShellFrameworkEmitter.AddHelper | src/shtest_compiler/compiler/shell_framework_emitter.py:20-24 | one helper: its header, each body line indented by four blanks, `}` and a blank line |
| ShellFrameworkEmitter.AddStep | src/shtest_compiler/compiler/shell_framework_emitter.py:27-40 | one step: its comment, its actions, its validations, a blank line |
| ShellFrameworkEmitter.AddNode | src/shtest_compiler/compiler/shell_framework_emitter.py:29-39 | a call is one line, inline code extends the list, anything else is skipped |
| ShellFrameworkEmitter.NotAllText | src/shtest_compiler/compiler/shell_framework_emitter.py:43 | a list holds a non-string exactly when it holds a validation check |
| ShellFrameworkEmitter.NodesCheck | src/shtest_compiler/compiler/shell_framework_emitter.py:28-39 | a check reaches the lines only from the code of an inline action |
| ShellFrameworkEmitter.HoldsCheckIn | src/shtest_compiler/compiler/shell_framework_emitter.py:32-33 | a node carries a check exactly when it is inline code with a check among its lines |
| ShellFrameworkEmitter.StepsCheck | src/shtest_compiler/compiler/shell_framework_emitter.py:26-40 | the steps' lines hold a check exactly when some step carries one |
| ShellFrameworkEmitter.HelpersText | src/shtest_compiler/compiler/shell_framework_emitter.py:18-24 | the helpers' lines are all strings |
| ShellFrameworkEmitter.EmitFails | src/shtest_compiler/compiler/shell_framework_emitter.py:12-43 | emitting fails exactly when some step's inline code carries a validation check, with the `TypeError` naming the first such item |
| ShellFrameworkEmitter.EmitLines | src/shtest_compiler/compiler/shell_framework_emitter.py:43 | otherwise the script is the lines joined by newlines and splits back into them when no line holds a newline |
| ShellFrameworkEmitter.StringsAppend | src/shtest_compiler/compiler/shell_framework_emitter.py:43 | the strings of two lists are the strings of each |
| ShellFrameworkEmitter.EmitFrame | src/shtest_compiler/compiler/shell_framework_emitter.py:15-43 | the script opens with the global code and a blank line and closes with the success message and `exit 0` |
| ShellFrameworkEmitter.FrameJoin | src/shtest_compiler/compiler/shell_framework_emitter.py:41-43 | joining a list that ends with those two lines ends with them |
| ShellFrameworkEmitter.EmitIgnoresParams | src/shtest_compiler/compiler/shell_framework_emitter.py:19 | a helper's parameters play no part in the script |
| ShellFrameworkEmitter.HelperPlaced | src/shtest_compiler/compiler/shell_framework_emitter.py:15-24 | helper `k` is written right behind the global code, the blank line and the helpers before it |
| ShellFrameworkEmitter.StepPlaced | src/shtest_compiler/compiler/shell_framework_emitter.py:15-40 | step `k` is written after all helpers and right behind the steps before it |
| ShellFrameworkEmitter.CallLineWords | src/shtest_compiler/compiler/shell_framework_emitter.py:29-31 | a call is one line: its name, a blank, its quoted arguments separated by blanks; without arguments the line ends with the blank |
| ShellFrameworkEmitter.InlineVerbatim | src/shtest_compiler/compiler/shell_framework_emitter.py:27-33 | an inline action's code lines are written as they are, behind the step's comment and the actions before it |
| ShtestAst.ActionsOfAppend | src/shtest_compiler/parser/shtest_ast.py:38-40 | splitting the steps splits the collected actions the same way |
| ShtestAst.ActionsOfOtherNames | src/shtest_compiler/parser/shtest_ast.py:39 | steps of any other name contribute nothing |
| ShtestAst.GroupedKeys | src/shtest_compiler/parser/shtest_ast.py:32-37 | the table has exactly the four keys `preparation`, `execution`, `validation`, `logs_check` |
| ShtestAst.GroupedEntries | src/shtest_compiler/parser/shtest_ast.py:31-41 | each entry holds the actions of its steps, in order, whatever the other steps are called |
| ShtestAst.GroupedStep | src/shtest_compiler/parser/shtest_ast.py:38-40 | one turn of the loop extends the entry of the step's name, if it is a key |
| ShtestAst.ShtestFile.constructor | src/shtest_compiler/parser/shtest_ast.py:21-29 | a new file has no steps, no variables or arguments, `last_file_var` `[None]` and the given path |
| ShtestAst.ShtestFile.GetGroupedSteps | src/shtest_compiler/parser/shtest_ast.py:31-41 | `get_grouped_steps` gives exactly the grouped actions |
| ShtestAst.ShtestFile.SetVariable | src/shtest_compiler/parser/shtest_ast.py:43-44 | the stripped name is set to the stripped value; `get_variable` then gives that value under every name that strips to it and the old value under every other name; nothing else changes |
| ShtestAst.ShtestFile.GetVariable | src/shtest_compiler/parser/shtest_ast.py:46-47 | `get_variable` gives `None` exactly when no variable is stored under the stripped name, and otherwise the value stored under it |
| ShtestAst.ShtestFile.AddAction | src/shtest_compiler/parser/ast_builder.py:156-157 | `current_step.actions.append(action)`: the action goes at the end of that step's actions; every other step and field is unchanged |
| ShtestAst.ShtestFile.AddStep | src/shtest_compiler/parser/shtest_ast.py:49-52 | a new step without actions goes at the end, at the returned index; nothing else changes |
| ShtestAst.VariableRoundTrip | src/shtest_compiler/parser/shtest_ast.py:43-47 | a variable is found under any spelling that strips to its name, with its value stripped |
| ShtestAst.VariableOthers | src/shtest_compiler/parser/shtest_ast.py:43-47 | setting one variable leaves every other name's value alone |
| ShellFramework.FrameworkAst.constructor | src/shtest_compiler/ast/shell_framework_ast.py:44-48 | the tree holds the given helpers, steps and global code |
| Counter.BumpedGet | src/shtest_compiler/ast/shell_framework_binder.py:215 | `counter.get(key, 0) + 1` |
| Counter.CountedSnoc | src/shtest_compiler/ast/shtest_to_shellframework_visitor.py:19-22 | counting one more key is one more update |
| Counter.CountedAppend | src/shtest_compiler/ast/shtest_to_shellframework_visitor.py:19-22 | counting two lists in turn is counting their concatenation |
| Counter.TallyKeys | src/shtest_compiler/ast/shell_framework_binder.py:210-215 | the counter lists each key once, in order of first occurrence |
| Counter.TallyCounts | src/shtest_compiler/ast/shell_framework_binder.py:210-215 | the counter holds how often each key occurs |
| Counter.TallyValid | src/shtest_compiler/ast/shell_framework_binder.py:210-215 | the counter has no key twice |
| Counter.RepeatedEntry | src/shtest_compiler/ast/shell_framework_binder.py:218-219 | a key's entry is above one exactly when the key occurs more than once |
| Counter.RepeatedKeys | src/shtest_compiler/ast/shtest_to_shellframework_visitor.py:24-25 | a key is among the repeated entries exactly when its count is above one |


## Left out
- File reading, directory walking and YAML loading: parsed documents and directory listings in enumeration order are inputs of the model.
- The regex engine: `re.match`, `re.compile` and the matches the rules run on are oracles (a parameter returning the groups, `None` or an exception). This covers the `rematch` of `validate_action_context`, the match of `match_pattern_with_variables` and the regex aliases of the command loader. `re.compile` errors of a rule pattern are not modelled.
- `validate_handler_name` reads `handler_requirements.yml`, so whether a handler is known is a parameter.
- `str()` of dicts and lists, as used in messages, is a parameter; `str()` of strings, `None`, booleans and integers is written out.
- `compile_atomic` and `parser.parse` are oracles; their exceptions are modelled as the `Fail` they return.
- The alias resolver of the expression parser (`AliasResolver().resolve(t)[0]`) is a total function from token to text: an exception raised while resolving an alias is not modelled.
- Handler effects in `build_handler_map` other than `sql_script_single` and `sql_script`: these are single list appends and dictionary updates on the action table. Positional-arity `TypeError`s when a spec gives a handler the wrong number of arguments are also left out.
- `SIMPLE_RULES` is not part of this model: `load_default_rules` takes its entries as input.
- The `KeyError` raised when the action table lacks a `sql_scripts` field: the table always has one.
- `int()` as the model reads it: decimal digits with an optional sign and surrounding blanks. Underscores and non-ASCII digits are not accepted.
- `\w` is exact up to U+00FF (ASCII letters, digits, `_` and the Latin-1 word characters); every character above U+00FF except whitespace is taken as a word character, which approximates Python's Unicode classes.
- Dynamic imports: `find_handler`, `build_registry`, `load_from_file` and `load_from_directory`.
- Logging, `print` and the debug output of the filters and transformers.
- The lexer's `Token.__repr__` and its `metadata` dictionary.
- The key order of the dictionary `get_grouped_steps` returns; the four entries are modelled as a map.
- `bind_missing_validation_params`: no shown node carries a `validations` attribute, so it changes nothing, and `bind` is modelled without it.
- The exact wording of Python's `TypeError` messages, which varies between versions: one fixed wording is used.
- `LegacyShuntingYard` shares the tokenizer, postfix conversion and stack evaluation with `ShuntingYard`, because the code is identical; only its last step is modelled separately.
- The `TestStep` objects that `_build_basic_ast` reaches through `current_step` are values in the list of steps: appending to the current step is updating the last step, which is the same object in the source.
- ShtestAst.ShtestFile.AddStep: returns the index of the new step rather than the step object, because steps are values in the model.
- ExcelExport.AstToStr: requires that the tree holds only `et` and `ou` operators. The `KeyError` that `_PREC` raises for any other operator is not modelled, because a printed tree always comes from the parser (`ExcelExport.ParsedOpsOk`).
- CommandLoader.Normalize: `str.lower()` follows the simple lower-case mapping of the Unicode Character Database 15.0 only in U+0000 to U+052F and U+1E00 to U+1EFF, and gives U+0130 its two-character form; capitals of other scripts (Armenian, Georgian, Greek Extended, full-width Latin, …) are kept as they are. The final-sigma rule reads the Cased and Case_Ignorable properties from the same blocks, so a letter or mark of another script next to a capital sigma counts as neither.
- SqlDrivers.GetSqlCommand: lowers the driver name with the same partial mapping as `CommandLoader.Normalize`; every supported driver name is ASCII, so only the text of the `ValueError` for an unsupported name with other capitals differs.
- SqlDrivers.CaseInsensitive: holds for the capitals the partial mapping covers; a driver name spelled with capitals outside those blocks is not covered.
- PluginPatterns.ExtractPatternsFromYml: the document is typed, so the untyped behaviours of `extractPatternsFromYml` are not modelled: a category that is a string is iterated character by character, a category that is not iterable or a `null` entry throws, and handler, pattern or scope fields that are not strings are copied as they are; the model types every field as an optional string.
- Context.CompileContext.constructor: the lists passed as `counter` and `last_file_var` are copied into the object's fields, so a caller's list is not updated when the context changes its cell, although the source shares it.
- PyValue.PyContains: compares values by their structure, so Python's equality between `True` and `1` (and `False` and `0`) is not modelled.
- HybridRegistry.RuleOf: the `KeyError` for a hashable handler value that is not a string carries that value's type name rather than the value's `repr`.
- PyValue.UpdatePair: the tables have string keys, so a pair whose key is a hashable value other than a string (a number, `None`, a tuple), which `dict.update` adds under that key, fails in the model with a `TypeError`.
- Concurrency and the global registries' sharing between imports: each registry is one object.

## Findings
| source | as written | input that shows it | evidently intended | confidence | as-written member | corrected member |
|---|---|---|---|---|---|---|
| src/shtest_compiler/verify_syntax.py:63-70 | the check that an `action_only` is followed by a `result_only` only runs when the next token arrives, so it never runs for the last token of the file | a step token followed by an `action_only` token that ends the file: no error is reported | the end of the file counts as a token that is not a result, so a trailing `action_only` is reported as `'Action' non suivie d'un 'Résultat'` | not executed | VerifySyntax.TrailingActionUnreported (VerifySyntax.Checked) | VerifySyntax.IntendedReportsEvery (VerifySyntax.CheckedIntended) |
| src/shtest_compiler/compiler/action_utils.py:86-136 | variable names come from `\{([^}]+)\}` but the groups come from `\{(\w+)\}`, so a placeholder that is not a word shifts every later name onto the wrong group | pattern `{-}{c}` matched with the group `x`: the result is `{"-": "x"}` and `c` is unbound | each name is bound to the group its own placeholder captured: `{"c": "x"}` | not executed | ActionUtils.MisalignedGroups (ActionUtils.MatchedVariables) | ActionUtils.IntendedBindsOwnGroup (ActionUtils.MatchedIntended) |
