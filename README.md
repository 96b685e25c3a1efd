# python-svdata in Dafny

python-svdata reads SystemVerilog source files and extracts their declarations into plain records. The records are an `SvData` holding the ANSI-style module declarations and the package declarations of a file:

- a module declaration records its identifier, its file path, its parameters, its ports, its instances and the comments in its header;
- a port records its direction, net type, data kind, data type, class name, signedness, packed and unpacked dimensions and comment;
- a parameter records its kind (parameter or localparam), its default expression, and its data type and signedness, each flagged when it was inferred from the default value and so may be overridden. It also records its class name, its width in bits, its dimensions and its comment;
- an instance records the instantiated module, the instance name, the labels of the generate blocks it sits in, and its port connections.

The repository also carries `SvPrimaryLiteralIntegral`, a 4-state integral literal of any width. It is stored as two planes of 64-bit limbs, least significant limb first. The 0/1 plane holds the bit values and the optional X/Z plane marks the bits that are X (X/Z bit set, 0/1 bit clear) or Z (both set). The literal implements the SystemVerilog operators on such literals: addition, multiplication, concatenation, shifts, rotations, bitwise negation, arithmetic negation, the relational operators, case equality, logical equality, wildcard equality, and narrowing a literal to its minimum width.

This project models both parts.

- The extraction is modelled on an abstract syntax tree. A `Syntax.Node` has a tag (the grammar symbol), a name and children. `Syntax.Stream` is the tree's traversal as Enter/Leave events, in the order the parser's iterator yields them. `Find` returns the first node of a kind in a subtree, in the way `unwrap_node!` does.
  - Each `for x in node` loop of the source is a method with a loop whose postcondition is a fold over the visited nodes: `Folds.FoldSteps` for an appending loop, `Folds.Scan` for a loop with state.
  - Lemmas state what the fold collects: the count, the order, and what each entry is built from.
  - A `panic!`, `unreachable!()` or failed `unwrap()` becomes an `Err` of `Panic`.
- The literal is modelled as the datatype `SvPrimaryLiteralIntegral(data01, dataXz, size, signed)` over unbounded limb values below 2^64.
  - `ValueOf` reads a plane as a number; `SPlane` reads it in two's complement at the literal's width; `LogicAt` gives the 4-state value of one bit.
  - `WF` is the shape the operations keep: a positive width, the number of limbs that width needs, and no bit set above it.
  - Each operation is a method whose loops follow the source's. They are proved against value-level statements: the sum, the product, the shifted value, the rotated bits, the complemented bits, the numeric comparison, the narrowest width.
  - Where the code departs from the operator it implements, the operation takes a rule parameter that selects the behaviour as written or the corrected one (see Findings). An operation built on another passes its rule on. Where the code itself calls such an operation (`cat`, `inv() + 1`, `is_negative`, `is_zero`, `logical_eq`, the sign extensions in `+`, `*`, `lt` and `gt`), the model uses the rule as written and proves that it gives the exact result there.

The modules follow the source files:

| Module | File |
|---|---|
| `SvMisc` | sv_misc.rs |
| `PortExtraction` | sv_port.rs |
| `InstanceExtraction` | sv_instance.rs |
| `ModuleExtraction` | sv_module.rs |
| `PackageExtraction` | sv_package.rs |
| `Library` | lib.rs |
| `Structures` | structures.rs |
| `PrimlitCore`, `PrimlitAdd`, `PrimlitCompare`, `PrimlitMult`, `PrimlitShift`, `PrimlitWildcard`, `PrimlitWidth` | sv_primlit_integral.rs |

`Syntax`, `Folds`, `Text`, `Panics`, `Wrappers` and `Limbs` are shared helpers: the tree, the folds, decimal parsing, panics, Option/Result, and limb arithmetic.

## Model

| member | source | states |
|---|---|---|
| SvMisc.Identifier | src/sv_misc.rs:3-14 | the text of the first simple or escaped identifier entered in the subtree; None exactly when no identifier node is entered |
| SvMisc.Keyword | src/sv_misc.rs:16-27 | the text of the first keyword entered in the subtree; None exactly when there is none |
| SvMisc.Symbol | src/sv_misc.rs:29-40 | the text of the first symbol entered in the subtree; None exactly when there is none |
| SvMisc.GetString | src/sv_misc.rs:42-65 | the loop's result is the collected text of the Locate tokens outside whitespace; None exactly when nothing is collected |
| SvMisc.CollectedAppend | src/sv_misc.rs:42-65 | collecting over two runs of events is collecting over the first, then over the second from the whitespace flag the first left |
| SvMisc.LeaveWhitespaceReenables | src/sv_misc.rs:48-53 | after leaving a whitespace node, the next Locate's text is appended |
| SvMisc.EnterWhitespaceSkips | src/sv_misc.rs:48-53 | a Locate entered inside whitespace adds nothing |
| SvMisc.NoLocateNoText | src/sv_misc.rs:42-65 | without Locate events nothing is collected, so the result is None |
| SvMisc.CollectedIsLocateTexts | src/sv_misc.rs:42-65 | the collected text is the concatenation, in order, of the texts of some of the entered Locate nodes, and so never longer than all of them |
| SvMisc.CollectedWithoutWhitespace | src/sv_misc.rs:42-65 | without WhiteSpace nodes the flag stays clear and every Locate text is collected, as in the source text of the node |
| SvMisc.GetComment | src/sv_misc.rs:67-90 | the loop's result is the list of Locate texts inside comments; None exactly when that list is empty |
| SvMisc.CommentTextsAppend | src/sv_misc.rs:67-90 | comment collection over two runs is the first's list followed by the second's, from the comment flag the first left |
| SvMisc.NoCommentNoEntries | src/sv_misc.rs:67-90 | without comment nodes no entry is collected and the flag stays clear |
| SvMisc.CommentTokenIsOneEntry | src/sv_misc.rs:75-79 | each Locate inside a comment is one entry of its own |
| PortExtraction.DirectionOf | src/sv_port.rs:742-759 | a direction keyword never gives IMPLICIT |
| PortExtraction.NetTypeOf | src/sv_port.rs:826-873 | a net type keyword never gives IMPLICIT |
| PortExtraction.DataTypeOf | src/sv_port.rs:769-824 | each type keyword names its own data type: the keyword is recovered from the type |
| PortExtraction.PortIdentifier | src/sv_port.rs:734-740 | the port name is the identifier of its PortIdentifier; without one, unreachable |
| PortExtraction.PortDirectionAnsi | src/sv_port.rs:742-759 | the written direction; otherwise the previous port's; Inout for the first port; IMPLICIT only when copied |
| PortExtraction.PortNettypeAnsi | src/sv_port.rs:826-873 | a variable-form port is a wire exactly when it writes no direction, type, signing or packed dimension. A net-form port has its written net type; otherwise Input and Inout are wires, Output is a wire exactly without a data type, Ref has none. The result is never IMPLICIT |
| PortExtraction.PortDatakindAnsi | src/sv_port.rs:761-767 | a port is a Net exactly when it has a net type, and a Variable exactly when it has none |
| PortExtraction.PortDatatypeAnsi | src/sv_port.rs:769-824 | the first type keyword's type; Logic without a data type; for a data type without keyword, success exactly when it is `string`; never IMPLICIT or Unsupported |
| PortExtraction.PortClassidAnsi | src/sv_port.rs:969-985 | a Class port has its class identifier and no other port has one; a Class port without one is unreachable |
| PortExtraction.PortSignednessAnsi | src/sv_port.rs:875-903 | none exactly for Class, String, Real and Time; otherwise the written signing, else Signed exactly for the signed integer types |
| PortExtraction.PortCheckInheritanceAnsi | src/sv_port.rs:987-1008 | a port inherits exactly when a previous port exists and it writes no data type, signing, net type, variable type, direction or packed dimension |
| PortExtraction.PackedOf | src/sv_port.rs:905-932 | one node's packed dimensions as the step of the fold |
| PortExtraction.PortPackeddimAnsi | src/sv_port.rs:905-932 | the loop gives the packed dimensions of the subtree in traversal order |
| PortExtraction.UnpackedOf | src/sv_port.rs:934-967 | one node's unpacked dimensions as the step of the fold |
| PortExtraction.PortUnpackeddimAnsi | src/sv_port.rs:934-967 | the loop gives the unpacked dimensions of the subtree in traversal order |
| PortExtraction.NonDimensionAddsNothing | src/sv_port.rs:905-967 | a node that is no dimension adds no packed and no unpacked dimension |
| PortExtraction.DimensionsInTraversalOrder | src/sv_port.rs:905-967 | the dimensions of two runs of nodes are those of the first followed by those of the second |
| PortExtraction.DimensionEntries | src/sv_port.rs:934-967 | an expression dimension gives one entry without right bound; a range dimension always has both bounds |
| PortExtraction.PortDeclarationAnsi | src/sv_port.rs:8-52 | the name, unpacked dimensions and comment come from the port itself. An inheriting port copies direction, net type, kind, type, class, signing and packed dimensions from the previous port; any other port resolves each from its own text |
| PortExtraction.PortDeclarationKeepsConsistency | src/sv_port.rs:8-52 | after a consistent port (or first), the port is a Net exactly when it has a net type, and neither its direction nor its kind is IMPLICIT |
| PortExtraction.PortParameterCheckDefaultAnsi | src/sv_port.rs:123-129 | true exactly when the assignment has a constant default expression |
| PortExtraction.ParameterResolverNeededAnsi | src/sv_port.rs:166-178 | true exactly when the assignment holds a constant function call, a binary operator, a concatenation or a conditional expression |
| PortExtraction.PortParameterIdentifierAnsi | src/sv_port.rs:328-334 | the name is the identifier of the ParameterIdentifier |
| PortExtraction.PortParameterValueAnsi | src/sv_port.rs:336-347 | no text without a default; otherwise the collected text of the default expression |
| PortExtraction.ParameterDatatypeResolverAnsi | src/sv_port.rs:180-217 | by the first literal: an integral number is Logic unless a real number appears, a real number Real; a time or unbased literal takes the kind of the first number and is otherwise Time or Bit; a string String; Unsupported without a literal |
| PortExtraction.PortParameterDatatypeAnsi | src/sv_port.rs:349-464 | a written type keyword gives its type, not overridable; another written data type must be `string`, else a stop; an inferred type is overridable: from the resolver when the expression needs one and has an operator, Unsupported when it has none, otherwise from the kind of the first literal; without default, no type for a Parameter and Logic for a localparam |
| PortExtraction.LiteralDatatype | src/sv_port.rs:440-455 | an integral number is Logic and a real number Real; an unbased literal Logic; a time literal Time; a string literal String |
| PortExtraction.ResolverStepAnsi | src/sv_port.rs:230-320 | the loop body decides or continues as the resolver step does |
| PortExtraction.ParameterSignednessResolverAnsi | src/sv_port.rs:219-326 | the loop stops at the first deciding node and gives the scan's signedness |
| PortExtraction.NotEqualResolvedSigned | src/sv_port.rs:309-318 | as written, `1 != 2` resolves to Signed |
| PortExtraction.EqualResolvedUnsigned | src/sv_port.rs:309-318 | `1 == 2` resolves to Unsigned |
| PortExtraction.NotEqualIsNotListed | src/sv_port.rs:312-313 | the operator list as written holds `==` but not `!=` |
| PortExtraction.LiteralContinues | src/sv_port.rs:232-291 | an unbased decimal literal does not decide |
| PortExtraction.OperatorStep | src/sv_port.rs:309-318 | a binary operator decides Unsigned exactly when it is listed |
| PortExtraction.IntendedEqualityOperatorsAgree | src/sv_port.rs:309-318 | with the corrected list, an expression whose first deciding node is `==` or `!=` is Unsigned, whatever follows |
| PortExtraction.ContinuePrefixScan | src/sv_port.rs:230-323 | nodes that do not decide can be skipped |
| PortExtraction.PortParameterSignednessAnsi | src/sv_port.rs:466-609 | a written signing wins and is not overridable; Class, String and Real have none; signed integer types are Signed; an inferred Logic with a default is resolved when it needs so and has an operator (Unsupported without one), otherwise taken from the literal: unbased Unsigned, a plain decimal Signed, a based number by its base spelling, Unsupported without a base, a stop without a literal; an inferred Logic without default is Unsigned; Unsupported stays Unsupported, other types Unsigned, no type none |
| PortExtraction.BaseSignedness | src/sv_port.rs:546-591 | a based literal is Signed exactly when its base is spelled `'sb`, `'sh`, `'so` or `'sd`; only an unsigned decimal base is not overridable |
| PortExtraction.PortParameterClassidAnsi | src/sv_port.rs:611-627 | a Class parameter has the class identifier of its declaration; any other has none; a Class without a declaration part stops |
| PortExtraction.BitsFoldStopPersists | src/sv_port.rs:642-658 | once the dimension loop stops or gives up, later dimensions change nothing |
| PortExtraction.LogicBits | src/sv_port.rs:693-723 | a Logic or Reg whose default needs no resolving and whose type is written is 1 bit |
| PortExtraction.PortParameterBitsAnsi | src/sv_port.rs:629-732 | the loop over the reversed dimensions gives the width the fold specifies |
| PortExtraction.Span | src/sv_port.rs:644-654 | the span of a dimension with integer bounds, abs(l - r) + 1, is between 1 and 2^63 |
| PortExtraction.SpanProduct | src/sv_port.rs:642-658 | the product of the spans is at least 1 |
| PortExtraction.BitsStepOfSpan | src/sv_port.rs:644-654 | one integer dimension sets the first width to its span and multiplies later ones by it, stopping on 64-bit overflow |
| PortExtraction.BitsFoldIsSpanProduct | src/sv_port.rs:642-658 | with integer bounds and no overflow, the fold is the product of the spans |
| PortExtraction.SpanProductFirst | src/sv_port.rs:642-658 | the product is the first span times the product of the rest |
| PortExtraction.SpanProductReverse | src/sv_port.rs:640 | reversing the dimensions does not change the product |
| PortExtraction.PackedBitsAreProduct | src/sv_port.rs:638-660 | with packed dimensions of integer bounds and no overflow, the width is the product of abs(l - r) + 1 |
| PortExtraction.UnparsableBoundGives404 | src/sv_port.rs:657 | a bound that is not an integer, met before any overflow, gives 404 |
| PortExtraction.BitsFoldGivesUp | src/sv_port.rs:657 | a non-integer bound after a successful prefix makes the fold give up |
| PortExtraction.BitsStepUnparsable | src/sv_port.rs:657 | one non-integer bound gives up |
| PortExtraction.GaveUpGives404 | src/sv_port.rs:657 | a fold that gives up makes the width 404 |
| PortExtraction.SevenDownToZeroIsEightBits | src/sv_port.rs:638-660 | `[7:0]` is 8 bits |
| PortExtraction.FixedWidths | src/sv_port.rs:662-730 | without dimensions: Bit 1, Byte 8, Shortint 16, Int, Integer and Shortreal 32, Longint, Time, Real and Realtime 64, Class none, and a written Logic or Reg 1 |
| PortExtraction.PortParameterSyntaxAnsi | src/sv_port.rs:131-164 | a stop exactly for packed dimensions on Integer, Real, String or Time, a signing on Real or String, or a localparam without default; the localparam message when that is the only fault |
| PortExtraction.PortParameterRecordAnsi | src/sv_port.rs:76-120 | once the data type and signedness are known: the kind, the name, the comment, the packed dimensions (none without a declaration part), the unpacked dimensions, the class name, the default and the width come from their component functions, the flags hold only for a Parameter, and the record passes the syntax check |
| PortExtraction.PortParameterDeclarationAnsi | src/sv_port.rs:54-121 | the parameter keeps its kind. A localparam is never overridable and without default stops. The result passes the syntax check, has an expression only with a default, and carries its name, comment, packed dimensions (none without a declaration part) and unpacked dimensions. Its data type, signedness (resolved with the operator list as written), class name, width and expression are those of the component functions, and each overridable flag is the inferred flag of a Parameter |
| InstanceExtraction.IdentifierBelow | src/sv_instance.rs:17-35 | the identifier below the first node of a kind; unreachable without one |
| InstanceExtraction.InstModuleIdentifier | src/sv_instance.rs:17-23 | success exactly when a ModuleIdentifier with an identifier exists, and then its text |
| InstanceExtraction.InstHierarchicalInstance | src/sv_instance.rs:26-35 | success exactly when an InstanceIdentifier with an identifier exists, and then its text |
| InstanceExtraction.HierarchyStepAnsi | src/sv_instance.rs:42-63 | the loop body gives a generate block's labels for the instance |
| InstanceExtraction.InstHierarchy | src/sv_instance.rs:38-67 | the loop gives the hierarchy the fold over the tree specifies |
| InstanceExtraction.Occurrences | src/sv_instance.rs:45-58 | zero exactly when the instance is not visited |
| InstanceExtraction.BlockLabelsRepeat | src/sv_instance.rs:45-58 | inside one generate block, each visit of the instance adds the block's label once |
| InstanceExtraction.BlockWithoutInstance | src/sv_instance.rs:42-63 | a generate block that does not contain the instance adds nothing |
| InstanceExtraction.OutsideGenerateBlocks | src/sv_instance.rs:38-67 | an instance outside every generate block has an empty hierarchy |
| InstanceExtraction.IndexValue | src/sv_instance.rs:93-113 | a variable index is its identifier; a number without a decimal part is unreachable |
| InstanceExtraction.LastIndexWins | src/sv_instance.rs:86-120 | the last index node visited decides the index |
| InstanceExtraction.NoIndexKeeps | src/sv_instance.rs:86-120 | without index nodes the index is unchanged |
| InstanceExtraction.SelectStepAnsi | src/sv_instance.rs:87-120 | the select body runs the index loop as the step specifies |
| InstanceExtraction.RightIndexAnsi | src/sv_instance.rs:86-120 | the loop leaves the index the scan specifies |
| InstanceExtraction.Indexed | src/sv_instance.rs:122-129 | the name alone for an empty index, otherwise name[index] |
| InstanceExtraction.NamedConnection | src/sv_instance.rs:79-133 | a named connection is [port, target]: the port identifier, and the target empty without a signal, otherwise the signal with its index |
| InstanceExtraction.OrderedConnection | src/sv_instance.rs:135-184 | an ordered connection without a signal adds nothing, otherwise [target] |
| InstanceExtraction.ConnectionStep | src/sv_instance.rs:70-190 | a named connection gives one entry, an ordered one its entries, any other node none |
| InstanceExtraction.ConnectionsCounted | src/sv_instance.rs:70-190 | one entry per connection node, in visit order |
| InstanceExtraction.InstConnections | src/sv_instance.rs:70-190 | the loop gives the connections the fold specifies |
| InstanceExtraction.ConnectionStepAnsi | src/sv_instance.rs:74-187 | the loop body gives the step's entries |
| InstanceExtraction.ModuleInstanceOf | src/sv_instance.rs:5-14 | the instance succeeds exactly when its four parts do, and holds the module name, instance name, hierarchy and connections |
| InstanceExtraction.ModuleInstance | src/sv_instance.rs:5-14 | `module_instance` gives the record above |
| ModuleExtraction.HeaderOnTop | src/sv_module.rs:183-184 | a ModuleAnsiHeader entry on top of the stack ends the walk at once, so the comment counts |
| ModuleExtraction.NoHeaderBelowTop | src/sv_module.rs:182-183 | below a top entry that is no header, the entries taken before a header are the same with or without that top |
| ModuleExtraction.QuietBelowTop | src/sv_module.rs:182-184 | below a top entry that is no header, all taken entries are quiet exactly when the top is and those below it are |
| ModuleExtraction.IfModuleCommentMeaning | src/sv_module.rs:179-185 | the comment test holds exactly when every stack entry above the innermost ModuleAnsiHeader entry names a WhiteSpace or Symbol node |
| ModuleExtraction.DeclaredParamType | src/sv_module.rs:94-103 | success exactly for the three parameter declaration kinds, LocalParam exactly for a localparam |
| ModuleExtraction.AssignmentsTyped | src/sv_module.rs:68-117 | every parameter of a list has the list's kind, and no packed dimensions without a declaration part |
| ModuleExtraction.AssignmentsCounted | src/sv_module.rs:68-117 | a list gives exactly one parameter per assignment below it |
| ModuleExtraction.ParamScanTypes | src/sv_module.rs:40-125 | the scope stays well formed and parameters are only appended |
| ModuleExtraction.UntypedListStep | src/sv_module.rs:106-112 | a list outside a typed declaration gives Parameters without packed dimensions |
| ModuleExtraction.TypedListStep | src/sv_module.rs:113-117 | a list under a declaration gives LocalParam exactly under a localparam |
| ModuleExtraction.ParameterPortListAnsi | src/sv_module.rs:40-125 | the loop gives the parameters the scan specifies |
| ModuleExtraction.ParamEvent | src/sv_module.rs:45-121 | one event of the parameter port list: entering a parameter declaration opens a common scope with that declaration as the type, leaving one closes it, and entering a list of assignments appends its parameters, typed by the open scope or as plain parameters outside one, stopping at an extraction panic |
| ModuleExtraction.AssignmentsAnsi | src/sv_module.rs:68-117 | the loop over one list gives the fold of its assignments |
| ModuleExtraction.ModuleEventStep | src/sv_module.rs:25-150 | the stack follows the event. Identifier and path are kept. An entered port declaration appends its port and becomes the previous port, and an entered instantiation appends its instance; nothing else changes ports or instances |
| ModuleExtraction.ModuleIdentifierOf | src/sv_module.rs:171-177 | a stop exactly without a ModuleIdentifier, otherwise its identifier |
| ModuleExtraction.ModuleDeclarationNonansi | src/sv_module.rs:154-169 | success exactly with an identifier; the identifier and path, every list empty |
| ModuleExtraction.ModuleEvent | src/sv_module.rs:26-149 | the loop body handles one event as the module step specifies: stack first, then the visited node |
| ModuleExtraction.ModuleDeclarationAnsi | src/sv_module.rs:7-152 | the loop gives the module record the scan specifies |
| ModuleExtraction.ModuleAnsiIsScan | src/sv_module.rs:7-152 | the ANSI record is what the event scan leaves from the non-ANSI record |
| ModuleExtraction.ModuleParentsTrack | src/sv_module.rs:25-37 | the stack is a function of the events alone |
| ModuleExtraction.StackDepth | src/sv_module.rs:25-37 | the stack holds one entry per node entered and not yet left |
| ModuleExtraction.ModuleStepsKeepPorts | src/sv_module.rs:127-133 | every step handles ports by appending the entered port declaration's port |
| ModuleExtraction.PortsChained | src/sv_module.rs:21-133 | the loop appends exactly the chained ports, one per entered port declaration in order, and the previous port is the last appended |
| ModuleExtraction.PortsChainedOneMore | src/sv_module.rs:127-133 | one more step keeps ports and previous port on the chain |
| ModuleExtraction.PortEventEffect | src/sv_module.rs:127-133 | an event extends the chain by its port exactly when it enters a port declaration |
| ModuleExtraction.PortChainConsistent | src/sv_module.rs:127-133 | chained ports stay consistent |
| ModuleExtraction.ModuleAnsiPorts | src/sv_module.rs:21-133 | a module's ports are its port declarations chained in order, all consistent |
| ModuleExtraction.ModuleStepsAppendInstances | src/sv_module.rs:135-140 | every step appends the instance of an entered instantiation and nothing else |
| ModuleExtraction.ModuleInstancesInOrder | src/sv_module.rs:135-140 | the instances are those of the entered instantiations, in Enter order |
| ModuleExtraction.InstanceEventEffect | src/sv_module.rs:135-140 | an entered node adds its instance; a left node adds nothing |
| ModuleExtraction.ModuleAnsiInstances | src/sv_module.rs:135-140 | a module's instances are those of its instantiations in Enter order |
| ModuleExtraction.CommentRecordedOnEnterAndLeave | src/sv_module.rs:142-147 | a header comment whose Enter and Leave both pass the test is recorded twice |
| ModuleExtraction.ModuleIdentityKept | src/sv_module.rs:12-19 | the loop never changes identifier or path |
| ModuleExtraction.ModuleAnsiIdentity | src/sv_module.rs:12-19 | an ANSI module keeps its first ModuleIdentifier's identifier and the given path |
| PackageExtraction.PackageIdentifierOf | src/sv_package.rs:45-48 | success exactly with a PackageIdentifier with an identifier, and then its text |
| PackageExtraction.AssignmentListOf | src/sv_package.rs:21-23 | success exactly when the declaration has an assignment list, and then that list |
| PackageExtraction.PackageDeclarationOf | src/sv_package.rs:6-43 | success exactly when the identifier and the declaration fold succeed; the record has that identifier, the path and the folded parameters |
| PackageExtraction.PackageDeclaration | src/sv_package.rs:6-43 | `package_declaration` gives the record above |
| PackageExtraction.DeclarationsOf | src/sv_package.rs:15-40 | the loop gives the fold of the declaration steps |
| PackageExtraction.DeclarationOf | src/sv_package.rs:17-37 | one node's body gives the declaration step |
| PackageExtraction.AssignmentStepsLocal | src/sv_package.rs:26-31 | every assignment made as LocalParam is a non-overridable LocalParam |
| PackageExtraction.AssignmentStepLocal | src/sv_package.rs:26-31 | one assignment made as LocalParam is a non-overridable LocalParam |
| PackageExtraction.DeclarationStepLocal | src/sv_package.rs:19-31 | every parameter one declaration adds is a non-overridable LocalParam |
| PackageExtraction.DeclarationStepsLocal | src/sv_package.rs:19-31 | every parameter any declaration step adds is a non-overridable LocalParam |
| PackageExtraction.PackageParametersLocal | src/sv_package.rs:19-31 | every package parameter is a LocalParam overriding neither type nor signedness |
| PackageExtraction.PackageParametersCounted | src/sv_package.rs:17-40 | one package parameter per assignment of each parameter declaration |
| PackageExtraction.PackageParameterWithoutDefault | src/sv_package.rs:26-31 | an assignment without default in any parameter declaration stops the extraction |
| Library.DataEventStep | src/lib.rs:52-64 | a Leave event changes nothing |
| Library.SvToStructure | src/lib.rs:41-68 | the loop gives the data the scan specifies |
| Library.DataEvent | src/lib.rs:43-66 | one event appends the extracted ANSI module or package when entered and leaves the data alone otherwise, stopping at an extraction panic |
| Library.ReadSvFile | src/lib.rs:20-39 | a file that does not parse is an error naming the path; otherwise the extraction from empty data, or its stop |
| Library.DataEventEffect | src/lib.rs:52-64 | an entered node appends its module and its package |
| Library.DataStepsAppend | src/lib.rs:52-64 | the file step appends what the module and the package extraction give |
| Library.CollectedInOrder | src/lib.rs:41-68 | the modules and packages appended are those of the entered nodes in Enter order |
| Library.ReadSvFileCollects | src/lib.rs:24-64 | one module per ANSI module declaration and one package per package declaration, in traversal order, each with the file's path |
| Library.ModuleStepsShape | src/lib.rs:53-58 | an ANSI module declaration gives one module with the path; other nodes give none |
| Library.PackageStepsShape | src/lib.rs:59-64 | a package declaration gives one package with the path; other nodes give none |
| Library.ReadSvFileEmpty | src/lib.rs:24-38 | a file without module or package declarations gives two empty lists |
| Library.ScanNothing | src/lib.rs:41-68 | events entering no module or package leave the data unchanged |
| Structures.ParamTypeRepr | src/structures.rs:193-198 | the repr text gives the parameter kind back |
| Structures.PortDirectionRepr | src/structures.rs:221-229 | the repr text gives the direction back |
| Structures.DataKindRepr | src/structures.rs:248-254 | the repr text gives the data kind back |
| Structures.SignednessRepr | src/structures.rs:275-282 | the repr text gives the signedness back |
| Structures.DataTypeRepr | src/structures.rs:337-361 | the repr text gives the data type back |
| Structures.NetTypeRepr | src/structures.rs:400-416 | the repr text gives the net type back |
| Structures.ReprInjective | src/structures.rs:193-416 | two values of any of the six enums with equal repr text are equal |
| Structures.UnpackedDisplay | src/structures.rs:583-591 | one pair per dimension, in order, the left bound kept and a missing right bound shown as None |
| Structures.UnpackedDimensionDisplay | src/structures.rs:583-591 | the display loop pushes one pair per dimension, in order |
| Structures.ConcatMapAppend | src/structures.rs:485-494 | writing a concatenation writes the first list, then the second |
| Structures.ConcatMapAt | src/structures.rs:485-494 | an item's text sits between the texts of the items before and after it |
| Structures.ConcatMapPairAt | src/structures.rs:485-494 | two lists written in sequence, with one item of each placed |
| Structures.SvDataDisplayOrder | src/structures.rs:485-494 | the display is every module in order, then every package in order |
| Structures.ModuleDisplayShape | src/structures.rs:497-517 | a module display is at least twelve characters, starts with the line "Module:" and ends with a line break |
| Structures.LowerHexValue | src/structures.rs:597 | the lower-case hex digits of a code point read back as that code point |
| Structures.EscapeChar | src/structures.rs:597 | a character is kept as itself exactly when it is not a backslash, a quote or a control; the backslash, quote, \0, \t, \n and \r become a backslash and one letter; every other C0 or C1 control and DEL becomes \u{...} with its code point in lower-case hex; no control is left |
| Structures.EscapeCodePoints | src/structures.rs:597 | start of heading, form feed and delete are written \u{1}, \u{c} and \u{7f} |
| Structures.EscapeCharInjective | src/structures.rs:597 | two characters with the same escape are the same character |
| Structures.EscapePrefixFree | src/structures.rs:597 | no escape is a proper prefix of another, so an escaped text splits into its characters' escapes one way only |
| Structures.Escape | src/structures.rs:597 | the escaped text is at least as long, holds no control character, and is the text itself when nothing in it needs escaping |
| Structures.EscapeInjective | src/structures.rs:597 | two texts with the same escaped form are equal |
| Structures.DebugString | src/structures.rs:597 | a quote, the escaped text and a quote, all on one line |
| Structures.DebugStringInjective | src/structures.rs:597 | two strings with the same debug text are equal |
| Structures.DebugStringList | src/structures.rs:502 | a list of strings is written as one line between brackets |
| Structures.DebugPairList | src/structures.rs:591 | a list of pairs of strings is written as one line between brackets |
| Structures.DebugListList | src/structures.rs:530 | a list of lists of strings is written as one line between brackets |
| Structures.SplitLines | src/structures.rs:497-682 | cutting a text at its line breaks gives lines without a break |
| Structures.SplitBlock | src/structures.rs:497-682 | lines without a break, each written followed by a break, are recovered by cutting the text at its breaks |
| Structures.BlockOfSplitLines | src/structures.rs:497-682 | a text that is empty or ends in a break is the block of its own lines |
| Structures.BlockAppend | src/structures.rs:497-517 | writing two runs of lines one after the other is writing their concatenation |
| Structures.ConcatMapBlock | src/structures.rs:506-516 | writing each item as its own block is the block of all the items' lines in order |
| Structures.PortLines | src/structures.rs:552-598 | the eleven lines of a port, the first "  Port: ", free of breaks when the identifier and class identifier are |
| Structures.PortDisplay | src/structures.rs:552-598 | at least 19 characters, starting with the line "  Port: " and ending in a break; cut at its breaks it gives back the port's eleven lines |
| Structures.PortDisplayDetermines | src/structures.rs:552-598 | two ports with the same display have the same identifier, direction, data kind, data type, net type and signedness, have a comment or not alike, and have the same class identifier unless one is the text "None" |
| Structures.NumBitsTextInjective | src/structures.rs:653-660 | the bit-width text gives the bit width back, None included |
| Structures.ParameterLines | src/structures.rs:603-682 | the thirteen lines of a parameter, the first "  Parameter: ", free of breaks when the identifier, expression and class identifier are |
| Structures.ParameterDisplay | src/structures.rs:603-682 | at least 26 characters, starting with the line "  Parameter: " and ending in a break; cut at its breaks it gives back the parameter's thirteen lines |
| Structures.ParameterDisplayDetermines | src/structures.rs:603-682 | two parameters with the same display have the same identifier, parameter type, data type, signedness, bit width and both overridable flags, have a comment or not alike, and have the same expression and class identifier unless one is the text "None" |
| Structures.InstanceLines | src/structures.rs:519-535 | the five lines of an instance, the first "  Instance: ", free of breaks when the module identifier and hierarchical name are |
| Structures.InstanceDisplay | src/structures.rs:519-535 | at least 17 characters, starting with the line "  Instance: " and ending in a break; cut at its breaks it gives back the instance's five lines |
| Structures.InstanceDisplayDetermines | src/structures.rs:519-535 | two instances with the same display have the same module identifier and hierarchical instance name |
| Structures.ModuleLines | src/structures.rs:497-517 | a module's lines: four header lines, eleven per port, thirteen per parameter, five per instance and a closing empty line, starting with "Module:" |
| Structures.ModuleDisplay | src/structures.rs:497-517 | the header, each port, parameter and instance display in list order and an empty line make the block of the module's lines, which cutting at the breaks gives back |
| Structures.PackageLines | src/structures.rs:537-550 | a package's lines: three header lines, thirteen per parameter and a closing empty line, starting with "Package:" |
| Structures.PackageDisplay | src/structures.rs:537-550 | the header, each parameter display in list order and an empty line make the block of the package's lines, which cutting at the breaks gives back |
| Structures.SvDataDisplay | src/structures.rs:484-495 | the block of every module's lines, then every package's lines; cutting at the breaks gives them back; empty exactly when there are no modules and no packages |
| Structures.NewSvParamType | src/structures.rs:189-191 | the default parameter kind is shown as Parameter |
| Structures.NewSvData | src/structures.rs:20-25 | no modules, no packages, nothing displayed |
| Structures.NewSvModuleDeclaration | src/structures.rs:60-69 | empty identifier, path and lists |
| Structures.NewSvPackageDeclaration | src/structures.rs:95-101 | empty identifier, path and parameters, and the display of an empty package |
| Structures.NewSvParameter | src/structures.rs:153-168 | an untyped, unsized, non-overridable Parameter with empty name |
| PrimlitCore.Bit1b0 | src/sv_primlit_integral.rs:8248-8255 | a well-formed unsigned 2-state one-bit literal whose bit is 0 |
| PrimlitCore.Bit1b1 | src/sv_primlit_integral.rs:8257-8264 | a well-formed unsigned 2-state one-bit literal whose bit is 1 |
| PrimlitCore.Logic1b0 | src/sv_primlit_integral.rs:8266-8273 | a well-formed unsigned 4-state one-bit literal whose bit is 0 |
| PrimlitCore.Logic1b1 | src/sv_primlit_integral.rs:8275-8282 | a well-formed unsigned 4-state one-bit literal whose bit is 1 |
| PrimlitCore.Logic1bX | src/sv_primlit_integral.rs:8284-8291 | a well-formed unsigned 4-state one-bit literal whose bit is X |
| PrimlitCore.Logic1bZ | src/sv_primlit_integral.rs:8293-8300 | a well-formed unsigned 4-state one-bit literal whose bit is Z |
| PrimlitCore.OneBitLiteralsDistinct | src/sv_primlit_integral.rs:8248-8300 | the six one-bit literals are pairwise distinct |
| PrimlitCore.ContainsXz | src/sv_primlit_integral.rs:185-197 | the loop answers whether some X/Z bit is set |
| PrimlitCore.HasXzMeaning | src/sv_primlit_integral.rs:185-197 | a literal holds X or Z exactly when its X/Z plane is present and nonzero |
| PrimlitCore.ToFourState | src/sv_primlit_integral.rs:200-217 | a zero X/Z plane as long as the 0/1 plane |
| PrimlitCore.FourStateKeepsBits | src/sv_primlit_integral.rs:200-217 | the 4-state form has the same bits, none X or Z |
| PrimlitCore.MsbMeaning | src/sv_primlit_integral.rs:220-248 | the leading-zeros test of the top limb is the test of bit size - 1 |
| PrimlitCore.IsSetMsb01Meaning | src/sv_primlit_integral.rs:220-248 | `is_set_msb_01` and `is_set_msb_xz` test bit size - 1 of their plane |
| PrimlitCore.PaddedKeepsValue | src/sv_primlit_integral.rs:45-68 | zero limbs on top keep both planes' values |
| PrimlitCore.PaddedKeepsLogic | src/sv_primlit_integral.rs:45-68 | zero limbs on top keep every bit and whether X/Z is present |
| PrimlitCore.VecElmntMatch | src/sv_primlit_integral.rs:45-68 | the shorter operand's planes are padded with zero limbs to the longer length |
| PrimlitCore.UnsignedPrimlitAdd | src/sv_primlit_integral.rs:19-42 | the matched 0/1 planes added limb by limb under the carry rule; width, sign and X/Z plane of `self` kept |
| PrimlitCore.AddLimbAt | src/sv_primlit_integral.rs:24-37 | one more limb of the sum, with the carry out |
| PrimlitCore.CarryAsWritten | src/sv_primlit_integral.rs:25-37 | the carry as written is wrong exactly when a carry comes into two all-ones limbs |
| PrimlitCore.AddPrefixValue | src/sv_primlit_integral.rs:24-37 | under either carry rule, the limbs so far, the carry out and the carries lost stand for the sum of the prefixes |
| PrimlitCore.AddLimbsValue | src/sv_primlit_integral.rs:19-42 | with the exact carry, the result stands for the sum of the values |
| PrimlitCore.AddLimbsLoss | src/sv_primlit_integral.rs:19-42 | under either carry rule, the result plus the carries lost is the sum of the values; the result is one limb longer exactly when it reaches the weight of the limbs |
| PrimlitCore.AsWrittenExactIff | src/sv_primlit_integral.rs:32-36 | the sum with the carry as written is the exact one exactly when no carry is lost |
| PrimlitCore.NoLossAboveLowLimb | src/sv_primlit_integral.rs:32-36 | no carry is lost when no limb of the right operand above the lowest is all ones |
| PrimlitCore.AddAsWrittenLosesCarry | src/sv_primlit_integral.rs:32-36 | as written, (2^128 - 1) + (2^128 - 2^64 + 1) loses the top carry |
| PrimlitCore.TruncateLimbs | src/sv_primlit_integral.rs:6139-6189 | one plane cut to the limbs of the width, its value the old one modulo 2^size |
| PrimlitCore.TruncateCounts | src/sv_primlit_integral.rs:6131-6137 | the limbs dropped and the top-limb bits cleared |
| PrimlitCore.ClearHighBits | src/sv_primlit_integral.rs:6144-6154 | the limb keeps its low bits |
| PrimlitCore.TruncatedValue | src/sv_primlit_integral.rs:6139-6154 | keeping the lower limbs and the low bits of the top one leaves the value modulo 2^width |
| PrimlitCore.Truncate | src/sv_primlit_integral.rs:6124-6196 | stops for width 0 and for a wider width; otherwise the low `size` bits of each plane in exactly the limbs needed, sign kept |
| PrimlitCore.TruncateIsWellFormed | src/sv_primlit_integral.rs:6124-6196 | the truncated literal is well formed |
| PrimlitAdd.SummedFacts | src/sv_primlit_integral.rs:19-42 | `_unsigned_primlit_add` under the carry rule gives the sum less the carries lost, one limb longer exactly on carry out; width, sign and X/Z plane of `self` kept |
| PrimlitAdd.FourStateFacts | src/sv_primlit_integral.rs:200-217 | the 4-state form holds no X or Z and keeps the literal's shape |
| PrimlitAdd.Cat | src/sv_primlit_integral.rs:2547-2577 | widths add, sign of `self` kept; each plane is `self`'s shifted by the width of `right` plus `right`'s |
| PrimlitAdd.CatXzPlane | src/sv_primlit_integral.rs:2553-2570 | the X/Z plane is present for 4-state operands and then the concatenation of theirs |
| PrimlitAdd.CatXz | src/sv_primlit_integral.rs:2553-2570 | the X/Z half is the shifted X/Z plane plus `right`'s, within the joint width |
| PrimlitAdd.CatAdd | src/sv_primlit_integral.rs:2572-2573 | the addition in `cat`, with the carry as written, loses no carry: the sum is exact, below 2^(joint width), in the matched limbs |
| PrimlitAdd.CatNoLoss | src/sv_primlit_integral.rs:2572-2573 | a plane shifted above the width of a second plane adds to it without a lost carry under the carry as written |
| PrimlitAdd.CatSummed | src/sv_primlit_integral.rs:2572-2573 | the addition in `cat` on the matched planes loses no carry: the exact sum of the shifted plane and the plane below it, within the joint width, in as many limbs as the wider plane |
| PrimlitAdd.CatPlane | src/sv_primlit_integral.rs:2547-2577 | a shifted plane plus a plane below the shift fits the joint width and its limbs |
| PrimlitAdd.CatLogic | src/sv_primlit_integral.rs:2547-2577 | bits of the concatenation are `right`'s below its width and `self`'s above (section 11.4.12 of IEEE 1800-2017) |
| PrimlitAdd.AllXLogic | src/sv_primlit_integral.rs:7122-7149 | every bit of the all-X result below its width is X |
| PrimlitAdd.AllX | src/sv_primlit_integral.rs:7122-7149 | the X of the given width the code builds is well formed and all X |
| PrimlitAdd.MatchedZero | src/sv_primlit_integral.rs:7095-7100 | the signed zero pushed to n limbs, as wide as its limbs |
| PrimlitAdd.AddPrimlit | src/sv_primlit_integral.rs:7068-7150 | width one more than the wider operand, signed when both are; with an X or Z in either operand the all-X result; otherwise the sum less the carries the rule loses, read modulo 2^width in two's complement when both are signed; exactly the sum under the corrected carry or when no carry is lost |
| PrimlitAdd.AddTwoState | src/sv_primlit_integral.rs:7079-7121 | without X or Z, the sum of the operands less the carries the rule loses (modulo 2^width when both are signed), exact when none is lost; well formed when the operands are |
| PrimlitAdd.AddUnsigned | src/sv_primlit_integral.rs:7092-7115 | the unsigned sum less the carries the rule loses, within the limbs of the final width |
| PrimlitAdd.AddSigned | src/sv_primlit_integral.rs:7094-7109 | the two's complement sum of the signed operands, less the carries the rule loses on the sign-extended planes, modulo 2^width; exactly the sum when none is lost |
| PrimlitAdd.ExtendedLoss | src/sv_primlit_integral.rs:7094-7103 | the carries lost on the sign-extended planes are the signed loss of the operands |
| PrimlitAdd.ExtendedSummed | src/sv_primlit_integral.rs:7094-7107 | the sign-extended planes added give the operands' sum less the signed loss, in at least one limb more than the wider operand, signed, with an X/Z plane of that length exactly when the left operand has one |
| PrimlitAdd.ClearXz | src/sv_primlit_integral.rs:7117-7119 | a 4-state result gets a zero X/Z plane; nothing else changes |
| PrimlitAdd.WidenSum | src/sv_primlit_integral.rs:7110-7115 | the unsigned sum widened to the final width keeps its value |
| PrimlitAdd.PushIfShort | src/sv_primlit_integral.rs:7112-7114 | a zero limb pushed exactly when the limbs hold fewer bits than the width; the value kept |
| PrimlitAdd.TruncateSum | src/sv_primlit_integral.rs:7108-7109 | the sign-extended sum cut to the final width is the two's complement sum less the loss, modulo 2^width; the sum itself without loss |
| PrimlitAdd.SignExtendBoth | src/sv_primlit_integral.rs:7094-7103 | both operands, without X or Z, sign extended to n limbs with the fill rule as written, which then fills by the top bit |
| PrimlitAdd.SignedSum | src/sv_primlit_integral.rs:7094-7109 | sign-extended planes added with a given loss and cut to the final width: the sum of the operands less the loss modulo 2^width, and the sum itself without loss |
| PrimlitCompare.FillLeading | src/sv_primlit_integral.rs:567-569 | the leading zeros of a limb become ones |
| PrimlitCompare.SignFill | src/sv_primlit_integral.rs:557-575 | every bit above the top set bit of the plane is set, up to the limbs' end |
| PrimlitCompare.FillAt | src/sv_primlit_integral.rs:557-575 | one limb of the fill; it stops at the first limb with a set bit |
| PrimlitCompare.SignFlags | src/sv_primlit_integral.rs:546-553 | the fill flags of each plane under the sign rule |
| PrimlitCompare.ExtendPlanes | src/sv_primlit_integral.rs:555-637 | each plane filled when its flag is set, untouched otherwise |
| PrimlitCompare.ExtendOperand | src/sv_primlit_integral.rs:542-641 | one operand sign extended to n limbs |
| PrimlitCompare.MatchedSignExtend | src/sv_primlit_integral.rs:542-641 | both operands matched to the longer length and sign extended there |
| PrimlitCompare.SignExtend | src/sv_primlit_integral.rs:857-909 | the literal sign extended within its own limbs, width 64 bits per limb |
| PrimlitCompare.SignExtendedBits | src/sv_primlit_integral.rs:542-641 | with the corrected rule, each bit of the extension is the original's, or its top bit above the width |
| PrimlitCompare.MatchedZeroExtend | src/sv_primlit_integral.rs:646-654 | both operands padded to the longer length, width 64 bits per limb |
| PrimlitCompare.SignExtendedPlanes | src/sv_primlit_integral.rs:542-641 | the 0/1 planes after sign extension stand for the widened two's complement values |
| PrimlitCompare.ZeroExtendedPlanes | src/sv_primlit_integral.rs:646-654 | the 0/1 planes after zero extension keep their values |
| PrimlitCompare.LimbsBelow | src/sv_primlit_integral.rs:3012-3033 | the limb loop answers the chosen limb order |
| PrimlitCompare.Lt | src/sv_primlit_integral.rs:2989-3038 | X with an X or Z in either operand; otherwise 1 exactly when the order holds |
| PrimlitCompare.Gt | src/sv_primlit_integral.rs:3875-3917 | X with an X or Z in either operand; otherwise 1 exactly when `right` is below `self` |
| PrimlitCompare.IsNegative | src/sv_primlit_integral.rs:122-127 | with the limb loop as written, true exactly for a signed literal without X or Z whose top bit is set |
| PrimlitCompare.LtZero | src/sv_primlit_integral.rs:122-127 | against the signed zero, `lt` in the limb order as written holds exactly for a signed literal whose top bit is set |
| PrimlitCompare.WidenedOrder | src/sv_primlit_integral.rs:542-641 | widened planes are equal as their two's complement numbers are, and ordered as them for one sign |
| PrimlitCompare.LtMeaning | src/sv_primlit_integral.rs:2989-3038 | with the lexicographic order, `lt` is the numeric order, signed when both operands are |
| PrimlitCompare.LtSingleLimb | src/sv_primlit_integral.rs:3012-3016 | on one limb each, the loop as written agrees with the lexicographic order |
| PrimlitCompare.LtAnyLimbCounterexample | src/sv_primlit_integral.rs:3012-3016 | as written, 2^64 is found below 1 |
| PrimlitCompare.Le | src/sv_primlit_integral.rs:3450-3463 | X with an X or Z; otherwise 1 exactly when `lt` in the chosen limb order holds or the operands are numerically equal; with the lexicographic order, 1 exactly when `self` is at most `right` |
| PrimlitCompare.Ge | src/sv_primlit_integral.rs:4329-4342 | X with an X or Z; otherwise 1 exactly when `gt` in the chosen limb order holds or the operands are numerically equal; with the lexicographic order, 1 exactly when `self` is at least `right` |
| PrimlitCompare.LeAnyLimbCounterexample | src/sv_primlit_integral.rs:3450-3463 | as written, 2^64 <= 1 answers 1 for 65-bit unsigned operands |
| PrimlitCompare.MatchedExtend | src/sv_primlit_integral.rs:4859-4895 | the extension before equality gives well-formed operands of the longer length |
| PrimlitCompare.CaseEq | src/sv_primlit_integral.rs:4859-4895 | 1 exactly when both planes agree after extension under the sign rule |
| PrimlitCompare.CaseEqMeaning | src/sv_primlit_integral.rs:4859-4895 | with the top bit extended, `===` is the equality of both planes, in two's complement when both are signed (section 11.4.5 of IEEE 1800-2017) |
| PrimlitCompare.CaseEqSignedMeaning | src/sv_primlit_integral.rs:4859-4895 | for two signed operands, `===` is equality of both planes in two's complement |
| PrimlitCompare.XzAgreeSigned | src/sv_primlit_integral.rs:4859-4895 | the X/Z half of `===` on signed operands is equality of their X/Z planes in two's complement |
| PrimlitCompare.SignFillDropsOnes | src/sv_primlit_integral.rs:546-547 | as written, the signed 4'sb1x00 is not case-equal to 8'sb1111_1x00 |
| PrimlitCompare.LogicalEq | src/sv_primlit_integral.rs:5139-5152 | X with an X or Z; otherwise 1 exactly when the operands are numerically equal |
| PrimlitCompare.SignRuleIrrelevant | src/sv_primlit_integral.rs:546-547 | `case_eq` against an operand without X or Z answers the same under the sign-fill rule as written and the corrected one |
| PrimlitCompare.IsZero | src/sv_primlit_integral.rs:169-174 | true exactly without X or Z and with a zero 0/1 plane |
| PrimlitMult.LowBitSet | src/sv_primlit_integral.rs:7158 | the lowest bit of `right_nu` is bit x of `right` |
| PrimlitMult.ShiftRight | src/sv_primlit_integral.rs:7169 | after `right_nu.lsr(1)`, `right_nu` is `right` divided by 2^(x+1), limbs kept |
| PrimlitMult.PartialProducts | src/sv_primlit_integral.rs:7157-7170 | one copy of `self` shifted to each set bit of `right` |
| PrimlitMult.ProductStep | src/sv_primlit_integral.rs:7157-7170 | one pass looks at one more bit of `right`: its partial product is added when the bit is set, `left_nu` moves to the next bit and `right_nu` is shifted once more |
| PrimlitMult.ShiftTerm | src/sv_primlit_integral.rs:7158-7167 | one more shift doubles the partial product |
| PrimlitMult.TermsNext | src/sv_primlit_integral.rs:7157-7169 | one more bit keeps the partial-product invariant |
| PrimlitMult.TermsDone | src/sv_primlit_integral.rs:7157-7170 | the partial products sum to `self` times `right` |
| PrimlitMult.MulUnsigned | src/sv_primlit_integral.rs:7152-7183 | at most the product of the 0/1 planes, and exactly it under the corrected carry; a zero product is the one-bit 0; otherwise the width of `self` plus the bit length of `right` |
| PrimlitMult.SumTerms | src/sv_primlit_integral.rs:7171-7182 | the partial products added to the one-bit 0 give at most their sum, and exactly it under the corrected carry |
| PrimlitMult.SumStep | src/sv_primlit_integral.rs:7178-7180 | one pass adds the next partial product: the running value is at most the sum of the products so far (exactly it under the corrected carry), one bit wider than the last |
| PrimlitMult.AddTermTo | src/sv_primlit_integral.rs:7178-7180 | one partial product added: the running value plus the carries lost is the old value plus the term |
| PrimlitMult.Widen | src/sv_primlit_integral.rs:8168-8171 | width set, values kept; padded limbs under the corrected rule |
| PrimlitMult.Resize | src/sv_primlit_integral.rs:8166-8171 | the product cut or widened to the final width, its value modulo 2^width |
| PrimlitMult.TruncateProduct | src/sv_primlit_integral.rs:8166-8167 | a wider product cut to the final width |
| PrimlitMult.SignedProduct | src/sv_primlit_integral.rs:8153-8167 | sign-extended planes multiplied and cut read as the two's complement product |
| PrimlitMult.SignExtendedProduct | src/sv_primlit_integral.rs:8153-8165 | at most the product of the sign-extended planes, and exactly it under the corrected carry |
| PrimlitMult.ProductSigned | src/sv_primlit_integral.rs:8153-8177 | under the corrected carry, two signed operands give their two's complement product at the joint width |
| PrimlitMult.ProductUnsigned | src/sv_primlit_integral.rs:8165-8177 | operands not both signed give at most the product of the planes at the joint width, and exactly it under the corrected carry |
| PrimlitMult.MultTwoState | src/sv_primlit_integral.rs:8152-8177 | without X or Z, at the joint width: at most the product for unsigned operands and exactly the product under the corrected carry |
| PrimlitMult.Mult | src/sv_primlit_integral.rs:8137-8201 | width the sum of the operands', signed when both are; all X with an X or Z; otherwise at most the product when unsigned, and under the corrected carry the product, in two's complement when both are signed |
| PrimlitMult.MultLeavesTooFewLimbs | src/sv_primlit_integral.rs:8168-8171 | as written, `64'd5 * 1'b0` is 65 bits wide in one limb, not well formed |
| PrimlitShift.ShlPrefixValue | src/sv_primlit_integral.rs:1612-1641 | shifting limbs up by one bit doubles their value, the bit out carried |
| PrimlitShift.LslLimbs | src/sv_primlit_integral.rs:1612-1641 | both planes shifted up by one bit, with the bits out of the top limbs |
| PrimlitShift.LslStep | src/sv_primlit_integral.rs:1606-1661 | one shift position doubles both planes and widens by one |
| PrimlitShift.LslTails | src/sv_primlit_integral.rs:1643-1660 | a 1 pushed on each plane with a bit out, a 0 on the other 4-state plane, a 0 on both when a signed literal outgrows its limbs |
| PrimlitShift.Lsl | src/sv_primlit_integral.rs:1603-1664 | `<<` by n multiplies both planes by 2^n and widens by n |
| PrimlitShift.ShrFromValue | src/sv_primlit_integral.rs:1916-1945 | shifting limbs down by one bit halves their value, the bit out left |
| PrimlitShift.LsrStep | src/sv_primlit_integral.rs:1912-1946 | one shift position halves both planes, width kept |
| PrimlitShift.Lsr | src/sv_primlit_integral.rs:1909-1949 | `>>` by n divides both planes by 2^n, width and limbs kept |
| PrimlitShift.LslThenLsr | src/sv_primlit_integral.rs:1603-1949 | shifting left then right by n gives the value back |
| PrimlitShift.RotateLeftBits | src/sv_primlit_integral.rs:2089-2109 | rotating left by n moves bit (i - n) mod size to bit i |
| PrimlitShift.RotateRightBits | src/sv_primlit_integral.rs:2249-2281 | rotating right by n moves bit (i + n) mod size to bit i |
| PrimlitShift.RotateRightUndoesLeft | src/sv_primlit_integral.rs:2089-2281 | rotating right by n undoes rotating left by n |
| PrimlitShift.RotateLeftFullTurn | src/sv_primlit_integral.rs:2089-2109 | size rotations left give the value back |
| PrimlitShift.RotateLeftZero | src/sv_primlit_integral.rs:2089-2109 | rotating zero gives zero |
| PrimlitShift.RotateRightFullTurn | src/sv_primlit_integral.rs:2249-2281 | size rotations right give the value back |
| PrimlitShift.Rol | src/sv_primlit_integral.rs:2089-2109 | n rotations left of both planes' low size bits; width and limbs kept, well formed |
| PrimlitShift.RolStep | src/sv_primlit_integral.rs:2092-2106 | one rotation left of both planes |
| PrimlitShift.LslTruncate | src/sv_primlit_integral.rs:2097-2098 | shift by one then truncate: each plane doubled modulo 2^size |
| PrimlitShift.Ror | src/sv_primlit_integral.rs:2249-2281 | n rotations right of both planes; width and limbs kept, well formed |
| PrimlitShift.RorOnce | src/sv_primlit_integral.rs:2260-2278 | one rotation right of both planes |
| PrimlitShift.InvTopBit | src/sv_primlit_integral.rs:1233-1246 | the top 0/1 bit flipped unless it is X or Z |
| PrimlitShift.Inv | src/sv_primlit_integral.rs:1220-1252 | each 0/1 bit below the width becomes 1 exactly when it was 0 and not X or Z; X/Z plane, width and sign kept |
| PrimlitShift.InvLoop | src/sv_primlit_integral.rs:1232-1249 | after size passes every bit has been treated |
| PrimlitShift.InvSetup | src/sv_primlit_integral.rs:1223-1230 | the top limb index, its unused bits and the weight of the top bit |
| PrimlitShift.InvStep | src/sv_primlit_integral.rs:1233-1248 | one pass moves the invariant from k to k + 1 |
| PrimlitShift.InvFinish | src/sv_primlit_integral.rs:1232-1251 | after size passes, the complement of every 0/1 bit outside X/Z |
| PrimlitShift.InvLogic | src/sv_primlit_integral.rs:1220-1252 | each bit of `~` is the 4-state negation of the original's (section 11.4.8 of IEEE 1800-2017) |
| PrimlitWildcard.WildcardEq | src/sv_primlit_integral.rs:5396-5460 | X with an X or Z in `self`; numeric equality without X or Z; otherwise 1 exactly when `self` matches `right` with its X and Z bits as wildcards |
| PrimlitWildcard.WildcardLoop | src/sv_primlit_integral.rs:5413-5456 | after one pass per bit, the loop invariant holds for the whole width |
| PrimlitWildcard.WildStep | src/sv_primlit_integral.rs:5414-5455 | one pass moves the invariant by one bit |
| PrimlitWildcard.WildTopBit | src/sv_primlit_integral.rs:5414-5452 | the right operand's top bit taken from the left where it is X or Z |
| PrimlitWildcard.RaiseTop | src/sv_primlit_integral.rs:5422-5451 | adding 2^63 to the top limb sets the clear top bit and no other |
| PrimlitWildcard.LowerTop | src/sv_primlit_integral.rs:5422-5451 | taking 2^63 from the top limb clears the set top bit and no other |
| PrimlitWildcard.WildFinish | src/sv_primlit_integral.rs:5412-5456 | after the loop, the left operand is unchanged and the right has the left's bits at its X/Z positions |
| PrimlitWildcard.MatchIff | src/sv_primlit_integral.rs:5458 | the replaced right equals the left exactly when the bits outside the wildcards match |
| PrimlitWildcard.WildcardResult | src/sv_primlit_integral.rs:5407-5458 | an X or Z in `self` survives; otherwise equality after the loop is the wildcard match |
| PrimlitWildcard.WildcardWithoutXz | src/sv_primlit_integral.rs:5396-5460 | without wildcards in `right`, the match is numeric equality |
| PrimlitWidth.UnsignedWidthNarrowest | src/sv_primlit_integral.rs:5776-5785 | the unsigned width holds the number, and no narrower width does |
| PrimlitWidth.SignedWidthNarrowest | src/sv_primlit_integral.rs:5790-5849 | the signed width holds the number in two's complement, and no narrower width does |
| PrimlitWidth.DropTopLimbs | src/sv_primlit_integral.rs:5821-5824 | the top n limbs removed |
| PrimlitWidth.TrimZeroLimbs | src/sv_primlit_integral.rs:5775-5784 | the zero limbs on top removed: a prefix with the same value, empty exactly for zero, otherwise with a nonzero top limb |
| PrimlitWidth.ShedStep | src/sv_primlit_integral.rs:5792-5818 | one step stops at a non-redundant sign bit, otherwise clears it, narrows by one and keeps the number |
| PrimlitWidth.ShedSignBits | src/sv_primlit_integral.rs:5790-5819 | the redundant sign bits shed, the number kept, the emptied limbs counted |
| PrimlitWidth.NegativeMinimal | src/sv_primlit_integral.rs:5790-5819 | a negative plane without a redundant sign bit has its narrowest signed width |
| PrimlitWidth.ZeroWidth | src/sv_primlit_integral.rs:5767-5831 | zero becomes one zero limb of width 1 |
| PrimlitWidth.MinimizeUnsigned | src/sv_primlit_integral.rs:5775-5785 | a nonzero unsigned literal keeps its value at its bit length, in the limbs that needs |
| PrimlitWidth.MinimizePositive | src/sv_primlit_integral.rs:5832-5849 | a positive signed literal keeps its value at its bit length plus a sign bit |
| PrimlitWidth.FullTopLimb | src/sv_primlit_integral.rs:5840-5848 | a zero limb on a full top limb keeps the value and makes room for the sign bit |
| PrimlitWidth.MinimizeNegative | src/sv_primlit_integral.rs:5790-5824 | a negative literal keeps its number at its narrowest signed width |
| PrimlitWidth.XzAfterTrim | src/sv_primlit_integral.rs:5852-5857 | the X/Z plane cut to the 0/1 plane's limbs |
| PrimlitWidth.TrimXz | src/sv_primlit_integral.rs:5852-5857 | the removal loop gives the trimmed plane of the chosen rule |
| PrimlitWidth.MinimizeData | src/sv_primlit_integral.rs:5765-5849 | the 0/1 plane at its narrowest width: unsigned at its bit length, signed at the narrowest two's complement width of its number |
| PrimlitWidth.MinimumWidth | src/sv_primlit_integral.rs:5765-5858 | the narrowest width of the literal with the trimmed X/Z plane; without X or Z the result is well formed and keeps the number |
| PrimlitWidth.TrimmedBits | src/sv_primlit_integral.rs:5852-5857 | with the corrected trim, every bit below the new width is the original's |
| PrimlitWidth.TrimXzLosesX | src/sv_primlit_integral.rs:5855 | as written, `65'b1x` loses its X; the corrected trim keeps it |
| PrimlitWidth.UsizeToPrimlit | src/sv_primlit_integral.rs:8235-8246 | a signed 2-state literal for the word read as a 64-bit signed number, at its narrowest width, with that number's limbs |
| PrimlitWidth.UsizeOne | src/sv_primlit_integral.rs:8235-8246 | the literal for 1 is two bits wide |
| PrimlitWidth.AddUsize | src/sv_primlit_integral.rs:8387-8394 | the word converted and added under the carry rule: all X with X or Z; for a signed literal the sum less the carries lost modulo 2^width, exactly the sum when none is lost; for an unsigned one the converted plane's value added, less the carries lost |
| PrimlitWidth.AddOneLosesNothing | src/sv_primlit_integral.rs:1056-1057 | adding the literal for 1 to a signed literal loses no carry under either rule |
| PrimlitWidth.InvValue | src/sv_primlit_integral.rs:1056 | without X or Z, `inv` gives 2^size - 1 - v, that is -1 - x in two's complement |
| PrimlitWidth.NegatedSum | src/sv_primlit_integral.rs:1056-1057 | `inv() + 1` of a signed 2-state literal, with the carry as written, is its negation, one bit wider than the wider of it and 2 |
| PrimlitWidth.PositiveSumWidth | src/sv_primlit_integral.rs:1060-1064 | for a positive sum, the width read off the top limb plus a sign bit holds it in the same limbs |
| PrimlitWidth.NegativeSumWidth | src/sv_primlit_integral.rs:1068-1071 | for a negative sum, the width read off the top limb is its width |
| PrimlitWidth.NegatedWidth | src/sv_primlit_integral.rs:1059-1073 | the width set after `inv() + 1` keeps the negated number |
| PrimlitWidth.Negate | src/sv_primlit_integral.rs:1046-1080 | zero returned as it is; otherwise the two's complement negation, signed, at the narrowest width |
| PrimlitWidth.Neg | src/sv_primlit_integral.rs:8420-8430 | one X bit with X or Z; otherwise the negation |

## Left out

- The parser is not modelled: `sv_parser::parse_sv`, `RefNode`, `unwrap_node!`, the syntax tree's event iterator and `get_str`/`get_origin`. A tree is an abstract `Syntax.Node` and its traversal is `Syntax.Stream`. The tag of a node stands for the `RefNode` variant.
- The Python layer is not modelled: the `#[pymodule]` function at src/lib.rs:70-76, the `#[pyclass]`/`#[pymethods]` attributes and the Python getters of src/structures.rs. `Library.ReadSvFile` returns `CouldNotParse(path)` where the code raises a `PyValueError` with a message.
- File I/O is left out: reading the file and the include paths passed to the parser become the parameter `parsed` of `Library.ReadSvFile`.
- `println!` debug output is not modelled.
- src/sv_primlit.rs is not part of this model.
- The `Display` of a literal (src/sv_primlit_integral.rs:8302-8377) is not modelled.
- The text of every record's `Display` in src/structures.rs is modelled, line by line. What is proved about it: each display is the block of its lines, cutting it at its breaks gives those lines back when the free text holds no break, and each display determines the scalar fields listed in its row. Not stated: reading back the contents of the `{:?}` lists (comments, hierarchy, connections, packed and unpacked dimensions) and of a comment, and telling `None` apart from `Some("None")` for the expression and class identifier, which print alike.
- Structures.EscapeChar: only the C0 controls, DEL and the C1 controls are escaped as `\u{...}`. Above U+009F, Rust's `{:?}` also escapes the characters its printability table calls unprintable and the grapheme extenders; those tables are not modelled, and such characters are kept as themselves.
- The `{:?}` of `String` and `char` belongs to Rust's standard library, not to this repository. Its rows cite src/structures.rs:597, the comment line that uses it.
- The `Add`, `Add<usize>`, `Mul`, `Shl` and `Shr` impls (src/sv_primlit_integral.rs:8379-8418) only forward to other operations. `Add`, `Mul`, `Shl` and `Shr` are `AddPrimlit`, `Mult`, `Lsl` and `Lsr`; `Add<usize>` is `AddUsize`.
- `usize` is fixed at 64 bits.
- Operations on `&mut self` are modelled as functions of values: a literal in, a literal out. No aliasing is modelled.
- A `panic!` that the code reaches becomes one of two things:
  - a precondition, where it guards the caller's obligation: `Negate` on an unsigned literal, `Mult` and `Truncate` shapes, `_sign_extend` on an unsigned literal;
  - an `Err(Panic)`, where the extraction reaches it from the parsed text.
- u64 overflow in the packed-dimension product is a stop (`Err(Overflow)`), as in a debug build. A release build would wrap around.
- The TODO values 404 and 32 of src/sv_port.rs:657, 683, 695, 716 and 725 are modelled as written.
- PortExtraction.LogicBits: the contract states only the branch of a written Logic or Reg. The body follows the inferred branches (the literal's size, 1 for an unbased literal, 32 otherwise) without a contract of their own.
- PortExtraction.PortParameterIdentifierAnsi: the contract gives the text on success only; the missing-identifier stop is not stated.
- PrimlitWidth.MinimumWidth: on a signed literal with X or Z whose top 0/1 bit is set, the code pushes a zero limb on the 0/1 plane only, so no well-formedness is promised then. A literal whose 0/1 plane is zero but which holds X or Z is excluded by a precondition: the code removes every limb and then indexes the empty vector (src/sv_primlit_integral.rs:5782-5783 and 5840).
- PrimlitWidth.Negate: a literal with X or Z is excluded by a precondition, because it reaches the same `_minimum_width` panic through the all-X sum. `Neg` tests for X or Z first and handles it. The zero-limb push at src/sv_primlit_integral.rs:1065-1067 is proved unreachable.
- PrimlitCompare.Lt: with the code's limb order, the contract states the comparison the loop makes, not the numeric order. For operands of more than one limb that is not the numeric order (see Findings). `Le` and `Ge` take the limb order too and are numeric only with the lexicographic one; `IsNegative` uses the order as written, which is exact against zero; `LogicalEq` and `WildcardEq` do not compare limbs by order.
- PrimlitCompare.Gt: as `Lt`, with the operands exchanged.
- PrimlitMult.MulUnsigned: the product is stated as at most the exact product, and as the exact product under the corrected carry. Under the carry as written the carries lost across the partial-product additions are not summed into one term, so the deficit is bounded but not given.
- PrimlitMult.SumTerms: the product is stated as at most the exact product, and as the exact product under the corrected carry. Under the carry as written the carries lost across the partial-product additions are not summed into one term, so the deficit is bounded but not given.
- PrimlitMult.SumStep: the product is stated as at most the exact product, and as the exact product under the corrected carry. Under the carry as written the carries lost across the partial-product additions are not summed into one term, so the deficit is bounded but not given.
- PrimlitMult.SignExtendedProduct: the product is stated as at most the exact product, and as the exact product under the corrected carry. Under the carry as written the carries lost across the partial-product additions are not summed into one term, so the deficit is bounded but not given.
- PrimlitMult.ProductUnsigned: the product is stated as at most the exact product, and as the exact product under the corrected carry. Under the carry as written the carries lost across the partial-product additions are not summed into one term, so the deficit is bounded but not given.
- PrimlitMult.MultTwoState: the product is stated as at most the exact product, and as the exact product under the corrected carry. Under the carry as written the carries lost across the partial-product additions are not summed into one term, so the deficit is bounded but not given.
- PrimlitMult.Mult: the product is stated as at most the exact product, and as the exact product under the corrected carry. Under the carry as written the carries lost across the partial-product additions are not summed into one term, so the deficit is bounded but not given.
- PrimlitMult.AddTermTo: the running value plus the carries lost is exact; only the carries of the one addition are named.
- PrimlitMult.ProductSigned: the two's complement product is stated only under the corrected carry; under the carry as written the lost carries of the sign-extended planes can change the value at the joint width, and no bound is given.

## Findings

| source | as written | input that shows it | evidently intended | confidence | as-written member | corrected member |
|---|---|---|---|---|---|---|
| src/sv_port.rs:312-313 | the operator list holds `"=!"`, a symbol the parser never produces | a parameter default `1 != 2` resolves Signed while `1 == 2` resolves Unsigned | `"!="`, so that inequality decides Unsigned like equality | high, not executed | PortExtraction.NotEqualResolvedSigned | PortExtraction.IntendedEqualityOperatorsAgree |
| src/sv_primlit_integral.rs:32-36 | the carry is taken as "the sum is below either operand", which misses a carry into two all-ones limbs | (2^128 - 1) + (2^128 - 2^64 + 1): limbs [2^64-1, 2^64-1] + [1, 2^64-1] give [0, 2^64-1] without the top carry | the exact carry of a 64-bit addition | high, not executed | PrimlitCore.AddAsWrittenLosesCarry | PrimlitCore.AddLimbsValue |
| src/sv_primlit_integral.rs:3012-3016 | `lt` answers 1 as soon as any limb of `self` is below the same limb of `right` | 2^64 (limbs [0, 1]) < 1 (limbs [1, 0]) as 65-bit unsigned answers 1 | a comparison from the top limb down, stopping at the first limb that differs | high, not executed | PrimlitCompare.LtAnyLimbCounterexample | PrimlitCompare.LtMeaning |
| src/sv_primlit_integral.rs:546-547 | the 0/1 plane is sign filled only when `is_negative()`, which is false whenever X or Z is present | 4'sb1x00 === 8'sb1111_1x00 answers 0 | the 0/1 plane extended by its top bit | high, not executed | PrimlitCompare.SignFillDropsOnes | PrimlitCompare.CaseEqMeaning |
| src/sv_primlit_integral.rs:5855 | the surplus X/Z limbs are removed at the index of the top 0/1 limb, each removal shifting the upper limbs down | `65'b1x` narrowed to 2 bits keeps X/Z limb 1 (zero) and loses the X in bit 0 | the X/Z plane cut to the same low limbs as the 0/1 plane | high, not executed | PrimlitWidth.TrimXzLosesX | PrimlitWidth.TrimmedBits |
| src/sv_primlit_integral.rs:8168-8171 | a product narrower than the final width only gets its width raised, keeping the limbs it has | `64'd5 * 1'b0` is 65 bits wide in one limb | the planes padded with zero limbs to the final width | medium, not executed | PrimlitMult.MultLeavesTooFewLimbs | PrimlitMult.Widen |
