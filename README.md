# docshift conversion core, modelled in Dafny

docshift converts between HTML and Word documents in the browser. This project models three parts of it.

- **html2docx** (`html2docx.js`) turns an HTML document into the blocks of a DOCX body:
  - the orphan pass wraps loose inline content in paragraphs;
  - the top-level block elements are chosen, with a line-wrapping fallback;
  - lists are flattened into list paragraphs;
  - runs are built from child nodes with inherited character properties;
  - inline CSS is read into run, border, image-floating and alignment properties, with CSS lengths converted to half-points and CSS colours to hex.
- **The HTML converter** (`mammoth/lib/document-to-html.js`) turns a parsed Word document into an HTML tree. It covers:
  - style-map lookup and unrecognised-style warnings;
  - paragraph and run CSS;
  - tables with header rows;
  - note and comment references, with their numbering, ids and the lists at the end of the document;
  - images as deferred nodes, which are resolved after the tree is built.
- **The paragraph transform** (`mammoth/wordjs/docx2html.js`) gives a paragraph the "code" style when all its runs use a monospace font.

How each part is modelled:

- The DOM is a tree of values (`Dom.Node`). Each element carries the computed `display` a browser would report for it.
- Each html2docx builder is a function that specifies it. Where the source loops (`parse_style`, `parse_border`, `get_align`, `build_ul`/`build_ol`, `build_child_nodes`, `processChildren`, the top-level loop of `html2docx`), a method with that loop is proved equal to the function.
- The HTML converter is written twice:
  - `Conversion` is a specification in functions. The converter's mutable state is threaded through every handler: the note number, the note references, the referenced comments, the messages array and the deferred-id counter. A `failed` flag stands for a thrown exception.
  - `Converter.DocumentConversion` is a class with the same state as fields. Its methods mutate those fields, and each method is proved to produce the specification's nodes and final state.
- `ConversionProps` proves what the converter promises for every document:
  - the state only grows;
  - deferred ids are consecutive in walk order;
  - notes and comments are numbered and listed in reference order;
  - each image is replaced by its own conversion.
- `RunCssReadBack` follows a run from mammoth's span style back through `parse_style`: the character flags survive the round trip.
- The orphan pass is idempotent: repairing its result again changes nothing.

Behaviours of the code that the model keeps as written:

- `deferredId` belongs to the module, not to a conversion: a second conversion continues numbering where the first stopped (`Converter.DeferredCounter` is shared).
- `li.querySelectorAll('ul li')` is matched against the whole document. It therefore finds every `li` at any depth below a direct item, whatever the list kind, and no level above 1 is produced.
- In `convertTableChildren`, `!child.type === tableRow` is always false, so only `isHeader` decides where the body starts.
- A comment reference with no style rule is dropped: the default path is `ignore`, which never calls its generator.
- A comment reference whose comment id is unknown throws (reading `authorInitials` of undefined).
- The `notes` and `dl` lists at the end of the document are built from the state at the moment each is read.
- `to_hex` never returns null for a non-empty value: its validity test is a comparison whose result is discarded.
- `to_hex` doubles a colour whose `length` is 3, counted in UTF-16 code units as JavaScript does, so a character above U+FFFF counts twice.
- `rgb_to_hex` drops its first four UTF-16 code units (`substr(4)`), not four characters. A cut through a surrogate pair leaves the pair's low half, which is no digit.
- In the orphan pass, the `parent.contains` checks always pass.
- After a block image is wrapped, the source resumes at the new paragraph. It finds nothing orphaned there, so the model resumes after it.
- `fontSize` is truncated toward zero (`Math.floor(parseInt(...))`; parseInt already truncates toward zero, so negative sizes agree too).

## Model

| member | source | states |
|---|---|---|
| Units.PixelsToHalfPoints | html2docx.js:611-612 | a pixel length converts to an even number of half-points |
| Units.ToHalfPoint | html2docx.js:598-620 | a value is produced only for a non-empty length whose trimmed text ends in pt or px, and it is even |
| Units.HalfPointFromPoints | html2docx.js:603-616 | "Npt" gives 2N half-points |
| Units.HalfPointFromPixels | html2docx.js:605-616 | "Npx" gives 2*ceil(72N/96) half-points |
| Units.SixteenPixels | html2docx.js:611-612 | 16px is 24 half-points |
| Units.TwelvePoints | html2docx.js:613-614 | 12pt is 24 half-points |
| Units.PixelsMonotonic | html2docx.js:611-612 | more pixels never give fewer half-points |
| Units.HalfPointOtherUnit | html2docx.js:599-619 | null, "" and any length not in pt or px give null |
| Units.HalfPointNonNumeric | html2docx.js:609-610 | a pt or px length whose remaining text parseInt cannot read gives null |
| Units.HalfPointParsed | html2docx.js:603-616 | a pt or px length whose remaining text parseInt reads as n gives 2n, or the pixel conversion of n |
| Units.LettersInPoints | html2docx.js:609-610 | "abcpt" gives null |
| Units.HalfPointNegative | html2docx.js:609-616 | "-Npt" gives -2N half-points, the sign read by parseInt |
| Units.HalfPointFraction | html2docx.js:609-616 | "N.Fpt" gives 2N half-points: parseInt stops at the decimal point |
| Strings.ParseIntNegative | html2docx.js:609 | parseInt reads a minus sign before decimal digits |
| Units.NumberParsed | html2docx.js:609 | parseInt reads back the decimal text of a natural number |
| Units.ToHex | html2docx.js:622-642 | the result is null exactly when the input is null or ""; the named-colour lookup (Units.NamedHex) covers all 147 entries of COLORS |
| Units.Utf16Length | html2docx.js:635 | `length` counts UTF-16 code units: at least one per character, and exactly one each when no character is above U+FFFF |
| Units.AstralDoubled | html2docx.js:635-637 | "a" and an emoji make three code units, so the colour is repeated |
| Units.HexLength | html2docx.js:635 | a hex text has as many code units as characters |
| Units.DropCodeUnits | html2docx.js:647 | substr(4) removes four UTF-16 code units (all of them when there are fewer), and is the plain slice when those units are characters below U+10000 |
| Units.AstralShiftsCut | html2docx.js:647 | an emoji before "rgb" counts twice, so "\U{1F600}rgb12,0,0" is cut to "b12,0,0" |
| Units.AstralRgb | html2docx.js:643-661 | that input gives "NaN0000", as the source does |
| Units.SplitPairCut | html2docx.js:647 | a cut through a surrogate pair leaves its low half |
| Units.RgbPrefixCut | html2docx.js:647 | after "rgb(" the cut is the plain slice |
| Units.RgbOfCut | html2docx.js:643-661 | the three channels of the cut and split text make the result |
| Units.NamedColor | html2docx.js:624-626 | a named colour, after trimming, gives its table entry |
| Units.LimeNamed | html2docx.js:86 | "lime" is one of the named colours and gives 00ff00 |
| Units.StrippedColor | html2docx.js:628-641 | a value that is neither named nor rgb() is stripped of '#' and trimmed, and doubled when 3 characters long |
| Units.HashHexText | html2docx.js:632-641 | "#"+hex gives the hex digits, doubled when there are 3 |
| Units.ShortHexDoubled | html2docx.js:635-637 | "#abc" gives "abcabc" (the block repeated, not each digit) |
| Units.LongHexKept | html2docx.js:632-641 | "#rrggbb" gives "rrggbb" |
| Units.InvalidColorKept | html2docx.js:638-641 | a value that is not one of the 147 colour names and no hex or rgb() form is returned unchanged, not rejected |
| Units.HexByte | html2docx.js:649-658 | a byte gives two hex digits |
| Units.ToNumberOfDigits | html2docx.js:649-651 | unary plus on decimal digits is their value |
| Units.ChannelOfByte | html2docx.js:649-651 | toString(16) of the number read from a decimal text is its hex text |
| Units.ChannelByte | html2docx.js:649-658 | a channel holding a byte's decimal text becomes that byte's two hex digits |
| Units.RgbParts | html2docx.js:645-647 | rgb(R,G,B) splits into the three channel texts |
| Units.RgbOfBytes | html2docx.js:643-661 | rgb(r,g,b) with byte channels gives rrggbb |
| Units.RgbRed | html2docx.js:643-661 | rgb(255,0,0) gives ff0000 |
| Declarations.Lookup | html2docx.js:547 | a dictionary lookup is defined exactly for present keys and gives their value |
| Declarations.ParseDeclarations | html2docx.js:536-545 | the declaration loop builds the dictionary of the style attribute, with "" for a missing attribute |
| Declarations.DeclMapKeys | html2docx.js:540-545 | a key is present exactly when some piece splits into two parts naming it |
| Declarations.DeclMapLast | html2docx.js:540-545 | the last well-formed declaration of a key gives its value |
| Declarations.DeclMapIgnores | html2docx.js:542 | a piece that does not split into exactly two parts contributes nothing |
| Declarations.MalformedIgnored | html2docx.js:541-542 | "a:b:c" and "a" are ignored |
| InlineStyle.KeyOfName | html2docx.js:543 | every declaration name is stored under a key that gives the name back |
| InlineStyle.NameKey | html2docx.js:549-585 | a property's own name is stored under that property |
| InlineStyle.AllowedKeys | html2docx.js:589 | the allow-list is every written property except smallCaps |
| InlineStyle.FontName | html2docx.js:554-558 | the font is the first comma-separated family with all single quotes removed |
| InlineStyle.StyleFrom | html2docx.js:589-595 | only allow-listed, non-null keys survive, smallCaps never does, indent is always present, and bold is set when the weight is bold (the converse is InlineStyle.BoldIff) |
| InlineStyle.ParseStyle | html2docx.js:534-596 | parse_style returns the dictionary its specification gives for the declarations |
| InlineStyle.Copied | html2docx.js:540-545 | the copied dictionary holds each property's declaration as written |
| InlineStyle.DeriveStyle | html2docx.js:547-595 | the conversions, writes and deletion give the specified dictionary |
| InlineStyle.Convert | html2docx.js:547-584 | the conversions are computed from the declarations |
| InlineStyle.WriteProperties | html2docx.js:547-595 | the writes in source order, then pruning, give the specified dictionary |
| InlineStyle.WriteConversions | html2docx.js:547-567 | shading, color, font, size and indent hold their final values |
| InlineStyle.WriteTransform | html2docx.js:569-574 | allCaps and smallCaps hold their final values |
| InlineStyle.WriteDecoration | html2docx.js:575-580 | strike and underline hold their final values |
| InlineStyle.WriteFontStyle | html2docx.js:581-586 | italics and bold hold their final values |
| InlineStyle.WrittenAll | html2docx.js:547-586 | after every write, each property holds its final value |
| InlineStyle.PrunedIsStyleFrom | html2docx.js:589-595 | deleting disallowed and null entries of the written dictionary gives the specified result |
| InlineStyle.PrunedEntries | html2docx.js:589-595 | deletion keeps exactly the allow-listed non-null entries, with their values |
| InlineStyle.Prune | html2docx.js:590-594 | a key is kept exactly when it is allow-listed and not null, and keeps its value |
| InlineStyle.IndentWithoutPadding | html2docx.js:562-567 | without padding-left the indent is {left: 0} (isNaN(null) is false) |
| InlineStyle.NoColorWithoutDeclaration | html2docx.js:552 | a missing or empty color leaves no color |
| InlineStyle.ColorConverted | html2docx.js:552 | a declared color survives, converted by to_hex |
| InlineStyle.FontFromFamily | html2docx.js:554-559 | a non-empty font-family gives the font of its first family |
| InlineStyle.BoldFrom | html2docx.js:584-594 | whatever else was derived, bold is On exactly when its condition held, and otherwise holds the raw "bold" declaration when there is one |
| InlineStyle.BoldIff | html2docx.js:584-594 | bold is On if and only if font-weight is "bold" or parses to at least 700; otherwise the key is present only for a raw "bold" declaration |
| InlineStyle.RawBoldKept | html2docx.js:584-594 | a raw "bold" declaration survives as text when the weight is not bold |
| InlineStyle.StyleFromAgree | html2docx.js:589-595 | written dictionaries that agree on the allow-list prune to the same result |
| InlineStyle.CapitalizeDerived | html2docx.js:569-574 | text-transform: capitalize changes only the smallCaps condition |
| InlineStyle.NotTransformName | html2docx.js:589 | no kept property is named text-transform |
| InlineStyle.FinalIgnoresCapitalize | html2docx.js:572-595 | the smallCaps condition does not affect any allow-listed key |
| InlineStyle.CapitalizeDropped | html2docx.js:572-574 | text-transform: capitalize has no effect on the result |
| Borders.SideOf | html2docx.js:675-681 | every border has space 1 and style single |
| Borders.ParseBorder | html2docx.js:663-709 | parse_border gives the borders the shorthand and longhands specify |
| Borders.ShorthandOnly | html2docx.js:674-682 | the shorthand alone sets all four sides to the same border |
| Borders.NoBorders | html2docx.js:673-708 | without border declarations every side is undefined |
| Borders.LeftOverridesOnlyLeft | html2docx.js:683-688 | border-left changes only the left side |
| Borders.TopOverridesOnlyTop | html2docx.js:695-700 | border-top changes only the top side |
| Borders.RightOverridesOnlyRight | html2docx.js:689-694 | border-right changes only the right side |
| Borders.BottomOverridesOnlyBottom | html2docx.js:701-706 | border-bottom changes only the bottom side |
| Borders.SideSize | html2docx.js:675-677 | size is 4 times the half-points of the first word, 0 when that is no length (null*4), and a multiple of 8 |
| Borders.NoColorWords | html2docx.js:675-676 | a value of at most two words has no colour |
| Placement.FloatingOf | html2docx.js:722-732 | a floating image has the fixed margins and is placed relative to the top margin |
| Placement.ParseImageFloating | html2docx.js:711-764 | parse_image_floating gives the floating its specification gives for the declarations |
| Placement.AutoMarginsCenter | html2docx.js:733-742 | auto margins on both sides centre the image with top-and-bottom wrapping |
| Placement.FloatLeft | html2docx.js:743-752 | float: left aligns left with square wrapping on the right |
| Placement.FloatRight | html2docx.js:753-762 | float: right aligns right with square wrapping on the left |
| Placement.FloatsIff | html2docx.js:733-763 | an image floats exactly when both margins are auto or float is left or right |
| Placement.GetAlign | html2docx.js:768-790 | get_align returns the alignment its specification gives for the style attribute |
| Placement.AlignLast | html2docx.js:772-789 | the value of the last well-formed text-align pair, at any position, is the one read, whatever pairs without text-align follow it |
| Placement.TrailingSemicolon | html2docx.js:772-789 | a text-align declaration followed by ';' decides the alignment; the empty last piece is skipped |
| Placement.CenterWithSemicolon | html2docx.js:772-789 | style="text-align: center;" is centred |
| Placement.WordPair | html2docx.js:773-775 | a pair "k: v" of two words is read as k and v |
| Placement.AlignWithoutTextAlign | html2docx.js:772-777 | without a text-align pair the key stays absent (and the default is left) |
| Placement.NoStyleLeft | html2docx.js:770 | no style attribute means left |
| ImageSizing.ScaleDown | html2docx.js:44-47 | a size at most max wide is unchanged |
| ImageSizing.ScaleDownWide | html2docx.js:48-50 | a wider size becomes exactly max wide with its aspect ratio kept |
| ImageSizing.ScaleDownBound | html2docx.js:44-51 | no result is wider than max, and non-negative widths stay non-negative |
| ImageSizing.InferSize | html2docx.js:474-484 | explicit sizes stand, and both zero gives the intrinsic size |
| ImageSizing.InferWidth | html2docx.js:477-480 | a zero width is inferred from the intrinsic aspect ratio, keeping the height |
| ImageSizing.InferHeight | html2docx.js:481-484 | a zero height is inferred from the intrinsic aspect ratio, keeping the width |
| ImageSizing.ImageTransformation | html2docx.js:486-490 | an image run is at most 600 wide |
| ImageSizing.CanvasSize | html2docx.js:499-504 | a canvas snapshot with a non-zero width keeps its own size |
| ImageSizing.CanvasTransformation | html2docx.js:506-510 | a canvas run is at most 600 wide |
| Dom.Attr | html2docx.js:538 | getAttribute is defined exactly for attributes an element has |
| Dom.NewParagraph | html2docx.js:952-962 | a created p holds the given children and is a block |
| OrphanRepair.GroupEnd | html2docx.js:868-942 | a group ends within the children and a block image stopping it is among them |
| OrphanRepair.GroupEndLeaves | html2docx.js:868-937 | a group started by an inline node that is no lone block image takes at least that node |
| OrphanRepair.GroupEndShape | html2docx.js:868-942 | every member is inline, a br only ends a group, a block image is never a member, and the stop is at a node that cannot continue |
| OrphanRepair.OrderPreserved | html2docx.js:837-981 | removing the new paragraphs gives the original children back, in order, each block with its own children repaired |
| OrphanRepair.GroupOrderPreserved | html2docx.js:862-977 | the same for the pieces from one group |
| OrphanRepair.GroupPartsOrder | html2docx.js:862-977 | the pieces of one group hold the group's nodes, then the repair of the siblings after it |
| OrphanRepair.ImagePartsOrder | html2docx.js:862-977 | whitespace kept before a lone block image, the image wrapped alone, then the repair of the rest, give back the nodes in order |
| OrphanRepair.GroupsWellFormed | html2docx.js:858-977 | only orphaned siblings are wrapped, and each wrapped group is non-empty, inline and significant |
| OrphanRepair.GroupPiecesWellFormed | html2docx.js:862-977 | the same for the pieces from one group |
| OrphanRepair.StepBlock | html2docx.js:851-855 | a block child is replaced by itself with its children repaired |
| OrphanRepair.StepSkip | html2docx.js:978-980 | a child that neither is a block nor starts a group is passed over |
| OrphanRepair.StepImage | html2docx.js:902-921 | a lone block image gets its own paragraph, and what precedes it stays |
| OrphanRepair.StepWrap | html2docx.js:945-974 | a significant group becomes one new paragraph |
| OrphanRepair.StepLeave | html2docx.js:975-977 | a whitespace-only group stays where it is |
| OrphanRepair.NotOrphanedUnchanged | html2docx.js:799-808 | below a valid parent nothing is orphaned and nothing changes |
| OrphanRepair.WhitespaceLeftInPlace | html2docx.js:929-977 | whitespace text before a non-inline node is left unwrapped |
| OrphanRepair.WhitespaceGroup | html2docx.js:929-942 | such a group stops at the non-inline node with nothing significant |
| OrphanRepair.CollectGroup | html2docx.js:864-942 | the inner loop collects exactly the group its specification gives |
| OrphanRepair.ProcessChildren | html2docx.js:837-981 | processChildren gives the repaired children |
| OrphanRepair.RepairGroup | html2docx.js:862-977 | one group round advances the walk and keeps it on the repaired result |
| OrphanRepair.BlockRound | html2docx.js:851-855 | a block round keeps the walk on the repaired result |
| OrphanRepair.SkipRound | html2docx.js:978-980 | a skipped round keeps the walk on the repaired result |
| OrphanRepair.WrapRound | html2docx.js:950-974 | a wrap round keeps the walk on the repaired result and moves past the new paragraph |
| OrphanRepair.ImageRound | html2docx.js:910-921 | an image round keeps the walk on the repaired result |
| OrphanRepair.LeaveRound | html2docx.js:975-977 | a whitespace round resumes after the group |
| OrphanRepair.GroupOrphanedElements | html2docx.js:794-986 | the container's children are repaired with every child orphaned |
| OrphanRepair.RepairedIdempotent | html2docx.js:837-981 | repairing already repaired children changes nothing: new paragraphs and blocks are kept, and whitespace left in place is left again |
| OrphanRepair.DescendIdempotent | html2docx.js:799-855 | the same for one node and its descendants |
| OrphanRepair.ContainerIdempotent | html2docx.js:794-986 | running group_orphaned_elements on its own result gives that result back |
| OrphanRepair.ImageIdempotent | html2docx.js:902-921 | the same for the pieces of a lone block image |
| OrphanRepair.WrapIdempotent | html2docx.js:945-974 | the same for a wrapped group |
| OrphanRepair.LeaveIdempotent | html2docx.js:975-977 | the same for a whitespace group left in place |
| TopLevel.KeepOutermost | html2docx.js:246-250 | the filter keeps at most the nodes it is given |
| TopLevel.KeepMembership | html2docx.js:246-250 | a node is kept exactly when no other match contains it |
| TopLevel.NoKeptInsideKept | html2docx.js:246-250 | no kept node lies inside another kept node |
| TopLevel.KeptCovers | html2docx.js:246-250 | every dropped match lies inside a kept one |
| TopLevel.MatchesSelectable | html2docx.js:244 | the query returns only selectable elements below the given position |
| TopLevel.KeptSelectable | html2docx.js:244-250 | every kept node is selectable |
| TopLevel.Selected | html2docx.js:244-250 | the chosen top-level nodes are all selectable elements |
| TopLevel.TrimEach | html2docx.js:59 | each line is trimmed |
| TopLevel.NonEmpty | html2docx.js:60 | a string is kept exactly when it is among the parts and not empty |
| TopLevel.NonEmptyKept | html2docx.js:60 | the filter keeps every non-empty part once, in its original order, and nothing else |
| TopLevel.PositionsAt | html2docx.js:60 | the k-th kept part is the part at the k-th listed position |
| TopLevel.PositionsIncrease | html2docx.js:60 | the listed positions increase |
| TopLevel.PositionsExact | html2docx.js:60 | a position is listed exactly when its part is not empty |
| TopLevel.Paragraphs | html2docx.js:62 | each line becomes `<p>line</p>` |
| TopLevel.LinesShape | html2docx.js:53-60 | every line is non-empty, trimmed and without a newline |
| TopLevel.LinesOfPieces | html2docx.js:53-60 | the lines are the pieces between line breaks and newlines that do not trim to "", trimmed, each once and in order |
| TopLevel.WrapLinesSplit | html2docx.js:53-63 | the result, split at newlines, is one `<p>line</p>` per line in order; with no line it is "" |
| TopLevel.SingleLine | html2docx.js:53-63 | any markup with no newline and no line break gives one paragraph of its trimmed text, or nothing when blank |
| TopLevel.BlankNoLines | html2docx.js:53-63 | there is no paragraph exactly when every piece is blank, and then the result is "" |
| TopLevel.WhiteSpaceBody | html2docx.js:53-63 | markup of white space only, newlines included, gives "" |
| Lists.DirectItems | html2docx.js:404 | the direct items are li elements |
| Lists.NestedItems | html2docx.js:410 | the nested items are li elements |
| Lists.SubItems | html2docx.js:410-415 | one level-1 paragraph per nested item |
| Lists.BuildList | html2docx.js:402-436 | build_ul and build_ol push the paragraphs their specification gives |
| Lists.ItemsFromStep | html2docx.js:404-416 | one outer round appends the group of one direct item |
| Lists.PushGroup | html2docx.js:405-416 | one outer round appends the direct item at level 0 and then its nested items |
| Lists.PushNested | html2docx.js:410-415 | the inner loop appends one level-1 paragraph per nested item |
| Lists.SubItemsContents | html2docx.js:410-415 | nested paragraphs are exactly the nested items, at level 1 |
| Lists.ItemGroupContents | html2docx.js:405-416 | a group holds its item at level 0 and its nested items at level 1 |
| Lists.OneTopItemPerDirectItem | html2docx.js:404-409 | each direct li gives exactly one level-0 paragraph, in order |
| Lists.NestedItemsAtLevelOne | html2docx.js:410-415 | the level-1 paragraphs are the li nested under each direct item in turn |
| Lists.SubItemsUniform | html2docx.js:410-415 | nested paragraphs have the list's kind and instance |
| Lists.ItemsUniform | html2docx.js:402-436 | every paragraph has the list's kind and instance, and level 0 or 1 |
| Lists.DeepItemFlattened | html2docx.js:410 | an li two lists deep is still a level-1 bullet |
| RunBuilder.RunProps | html2docx.js:445-459 | a text run carries exactly the inherited run properties |
| RunBuilder.PassedDown | html2docx.js:514-528 | the child's own style overrides the inherited one, the tag flags override both, and a link sets anchor and underline |
| RunBuilder.BuildChildNodes | html2docx.js:438-532 | build_child_nodes gives the runs as written, or throws |
| RunBuilder.RunsStep | html2docx.js:443-531 | one loop round appends the runs of one child |
| RunBuilder.ConvertChild | html2docx.js:444-530 | one child is converted as written |
| RunBuilder.AsWrittenAgrees | html2docx.js:438-532 | when the conversion as written does not throw, it equals the conversion that skips comments, and without comments it never throws |
| RunBuilder.ChildAgrees | html2docx.js:444-530 | the same for one child |
| RunBuilder.CommentInParagraphThrows | html2docx.js:513-514 | a comment in a paragraph makes the conversion throw |
| RunBuilder.TextPreserved | html2docx.js:438-532 | outside lists, the runs carry exactly the text of the nodes, in document order |
| RunBuilder.ChildTextPreserved | html2docx.js:444-530 | the same for one child |
| RunBuilder.ElementTextPreserved | html2docx.js:444-530 | the same for one element child: a link's runs, or the element's own children's runs |
| RunBuilder.ListParentFlat | html2docx.js:513 | under ul or ol each child gives at most one run, and plain elements give none |
| RunBuilder.HyperlinkIgnoresInheritance | html2docx.js:461-466 | a link's runs inherit only the Hyperlink style |
| RunBuilder.SnapshotInline | html2docx.js:493-511 | a canvas snapshot never floats and is at most 600 wide |
| DocumentBuilder.HeadingLevel | html2docx.js:266 | the heading level is 1-6 exactly for h1-h6 |
| DocumentBuilder.ItemBlocks | html2docx.js:268-271 | each list item becomes one list paragraph |
| DocumentBuilder.ConvertNodes | html2docx.js:257-272 | the loop builds the blocks of the chosen nodes in order |
| DocumentBuilder.Html2Docx | html2docx.js:226-274 | html2docx builds the blocks of the chosen nodes of the prepared body |
| DocumentBuilder.BlocksOfInstances | html2docx.js:257-271 | the paragraphs of one list carry its index as instance |
| DocumentBuilder.ListInstances | html2docx.js:257-272 | every list paragraph belongs to the list its instance names, with its kind and level 0 or 1 |
| DocumentBuilder.SingleBlocks | html2docx.js:260-267 | paragraph-like, table and heading nodes give one block, and other tags none |
| DocumentBuilder.StrictSkipsRepair | html2docx.js:237-239 | strict mode skips the orphan pass |
| HtmlTree.Nest | mammoth/lib/document-to-html.js:218-222 | wrapping in a path gives one element with the outermost tag, and an empty path gives the content |
| HtmlTree.WalkHtml | mammoth/lib/document-to-html.js:51-56 | walkHtml collects the deferred nodes in pre-order |
| HtmlTree.DeferredInAppend | mammoth/lib/document-to-html.js:507-514 | the walk of a concatenation is the concatenation of the walks |
| HtmlTree.ReplaceAppend | mammoth/lib/document-to-html.js:63-77 | replaceDeferred distributes over concatenation |
| HtmlTree.NestDeferred | mammoth/lib/document-to-html.js:218-222 | wrapping adds no deferred node |
| HtmlTree.ReplaceWithoutDeferred | mammoth/lib/document-to-html.js:63-77 | a tree without deferred nodes is unchanged |
| HtmlTree.ReplaceKeepsOthers | mammoth/lib/document-to-html.js:63-77 | with empty values, replacement removes exactly the deferred nodes and keeps the rest in order |
| HtmlTree.ReplaceInPlace | mammoth/lib/document-to-html.js:65-66 | each deferred node is replaced by its own value in place |
| HtmlTree.ReplaceResolvesAll | mammoth/lib/document-to-html.js:63-77 | no deferred node is left when no value holds one |
| HtmlStyles.FirstMatchFrom | mammoth/lib/document-to-html.js:248-254 | the first rule from i on that matches, and none before it |
| HtmlStyles.FirstMatch | mammoth/lib/document-to-html.js:248-254 | the first matching rule, or no rule matches |
| HtmlStyles.FindStyle | mammoth/lib/document-to-html.js:248-254 | the loop returns the first matching rule |
| HtmlStyles.PathOr | mammoth/lib/document-to-html.js:243-246 | without a match the default path is used |
| HtmlStyles.FormatColor | mammoth/lib/document-to-html.js:225-230 | '#' is prefixed exactly to 3-8 hex digits, and otherwise the value is unchanged |
| HtmlStyles.FormatColorIdempotent | mammoth/lib/document-to-html.js:225-230 | formatting twice equals formatting once |
| HtmlStyles.PaddingLeftIff | mammoth/lib/document-to-html.js:124-126 | padding-left is present exactly when indent.start parses, with value n/20 in pt |
| HtmlStyles.PlainParagraphCss | mammoth/lib/document-to-html.js:121-140 | a paragraph without alignment, indent or borders has empty CSS |
| HtmlStyles.VerticalElements | mammoth/lib/document-to-html.js:202-207 | at most one of sub and sup |
| HtmlStyles.RunCssBoldColor | mammoth/lib/document-to-html.js:164-198 | a hex colour gets '#', and bold and italic give their declarations |
| RunCssReadBack.RunCssReadBack | mammoth/lib/document-to-html.js:163-200 | a run's span style, read back by parse_style (html2docx.js:536-595), has bold, italics, underline and all caps exactly when the run has them, and strike exactly for a strikethrough without underline, each then true |
| RunCssReadBack.RunCssDeclarations | mammoth/lib/document-to-html.js:163-198 | the declarations of a run's CSS name only the formatting, transform, decoration, style and weight, and the last transform or decoration written wins |
| RunCssReadBack.RunCssGroups | mammoth/lib/document-to-html.js:181-198 | each flag entry adds exactly its own declaration over the formatting ones |
| RunCssReadBack.RunCssSeparable | mammoth/lib/document-to-html.js:163-198 | no entry holds a ';' when the colours and the font hold none |
| RunCssReadBack.FormatCssKeys | mammoth/lib/document-to-html.js:164-179 | the colour, highlight, shading, font and size entries declare only their own names |
| RunCssReadBack.ReadBackJoined | html2docx.js:538-545 | entries joined with "; " and split at ';' give the dictionary of the entries themselves |
| RunCssReadBack.SplitJoined | html2docx.js:538 | splitting a "; "-join of ';'-free entries gives the first entry and the others each with a leading space |
| RunCssReadBack.DeclMapAppend | html2docx.js:540-545 | the dictionary of two lists of pieces is the first's, overridden by the second's |
| RunCssReadBack.EntryDecl | html2docx.js:541-543 | "k: v" declares k if anything, and exactly k: v when v is one word |
| RunCssReadBack.WeightAndStyleKept | html2docx.js:582-594 | bold and italics are present exactly when derived from the declarations, and then true |
| RunCssReadBack.LinesAndCaseKept | html2docx.js:570-594 | underline, strike and all caps are present exactly when derived from the declarations, and then true |
| HtmlStyles.ParagraphPath | mammoth/lib/document-to-html.js:118-154 | a rule mapping to ignore throws, an unmatched style id gives one warning, and no rule gives a p with the CSS |
| HtmlStyles.RunWarnings | mammoth/lib/document-to-html.js:209-215 | one warning exactly for an unmatched style id |
| HtmlStyles.HyperlinkHref | mammoth/lib/document-to-html.js:433 | an anchor gives "#" + prefixed id, and otherwise the href |
| HtmlStyles.IdsInjective | mammoth/lib/document-to-html.js:275-285 | distinct note or comment ids give distinct referent and reference ids |
| HtmlStyles.ReferentMeetsReference | mammoth/lib/document-to-html.js:275-285 | a referent id equals a reference id exactly when the one id is "ref-" + the other |
| HtmlStyles.BodyIndex | mammoth/lib/document-to-html.js:298-303 | the body starts after the leading header rows, at the first non-header |
| HtmlStyles.CellAttributes | mammoth/lib/document-to-html.js:340-346 | colspan and rowspan are present exactly when not 1 |
| HtmlStyles.CellSpansRead | mammoth/lib/document-to-html.js:341-346 | the span attributes read back as the spans |
| Conversion.ConfigOf | mammoth/lib/document-to-html.js:34-40 | idPrefix defaults to "", ignoreEmptyParagraphs to true, and styleMap to [] |
| Conversion.ResolveNotes | mammoth/lib/document-to-html.js:413-415 | each reference resolves to its note, in order, or one of them is missing |
| Conversion.Resolved | mammoth/lib/document-to-html.js:57-61 | every deferred node found gets a value, and only those do |
| ConversionProps.Range | mammoth/lib/document-to-html.js:487 | consecutive ids from the counter |
| ConversionProps.FollowsTrans | mammoth/lib/document-to-html.js:28-32 | state growth is transitive |
| ConversionProps.Chain | mammoth/lib/document-to-html.js:87-91 | two conversions in a row grow the state and draw consecutive ids |
| ConversionProps.ElementsEmit | mammoth/lib/document-to-html.js:87-91 | converting elements only grows the state and draws consecutive ids in walk order |
| ConversionProps.ElementEmits | mammoth/lib/document-to-html.js:93-104 | the same for every element type |
| ConversionProps.LeafEmits | mammoth/lib/document-to-html.js:426-447 | the same for text, tab, bookmark and image |
| ConversionProps.HyperlinkEmits | mammoth/lib/document-to-html.js:432-441 | the same for hyperlinks |
| ConversionProps.NoteReferenceEmits | mammoth/lib/document-to-html.js:448-456 | the same for note references |
| ConversionProps.RowOrCellEmits | mammoth/lib/document-to-html.js:330-351 | the same for rows and cells |
| ConversionProps.BreakEmits | mammoth/lib/document-to-html.js:393-408 | the same for breaks |
| ConversionProps.ParagraphEmits | mammoth/lib/document-to-html.js:106-116 | the same for paragraphs |
| ConversionProps.RunEmits | mammoth/lib/document-to-html.js:157-223 | the same for runs |
| ConversionProps.NoteEmits | mammoth/lib/document-to-html.js:457-466 | the same for notes |
| ConversionProps.CommentReferenceEmits | mammoth/lib/document-to-html.js:353-367 | the same for comment references |
| ConversionProps.TableEmits | mammoth/lib/document-to-html.js:291-295 | the same for tables |
| ConversionProps.TableChildrenEmit | mammoth/lib/document-to-html.js:297-328 | the same for the rows of a table |
| ConversionProps.CommentEmits | mammoth/lib/document-to-html.js:369-391 | the same for a comment |
| ConversionProps.CommentsEmit | mammoth/lib/document-to-html.js:419-421 | the same for the comment list |
| ConversionProps.DocumentEmits | mammoth/lib/document-to-html.js:411-423 | the same for the whole document |
| ConversionProps.DocumentNumbered | mammoth/lib/document-to-html.js:28-30 | the note number stays one past the count of note references |
| ConversionProps.NoteReferenceNumbered | mammoth/lib/document-to-html.js:448-456 | a note reference is pushed and labelled with its number in order |
| ConversionProps.IndexByKeys | mammoth/lib/document-to-html.js:17-20 | the comment index holds exactly the ids of the comments, each under its own id |
| ConversionProps.IndexByLast | mammoth/lib/document-to-html.js:17-20 | the last comment with an id is the one indexed |
| ConversionProps.ConfigComments | mammoth/lib/document-to-html.js:17-21 | the comment index holds exactly the document's comment ids |
| ConversionProps.CommentReferenceNumbered | mammoth/lib/document-to-html.js:353-367 | without a rule the reference is dropped, an unknown comment throws, and otherwise the comment is pushed with label [initials+count] |
| ConversionProps.TableSplit | mammoth/lib/document-to-html.js:297-328 | leading header rows go into thead and the rest into tbody, or everything is converted as body |
| ConversionProps.CellShape | mammoth/lib/document-to-html.js:337-351 | a cell is th in a header and td otherwise, with spans exactly when not 1 |
| ConversionProps.NotesListed | mammoth/lib/document-to-html.js:416-418 | each note becomes one li with its referent id and a back link, in order |
| ConversionProps.CommentsListed | mammoth/lib/document-to-html.js:419-421 | each referenced comment becomes a dt/dd pair with its ids and label, in order |
| ConversionProps.ResolvedNotes | mammoth/lib/document-to-html.js:413-415 | each resolved note has its reference's type and id |
| ConversionProps.DocumentNotes | mammoth/lib/document-to-html.js:411-418 | after the body comes an ol with one li per note reference, in order |
| ConversionProps.DocumentComments | mammoth/lib/document-to-html.js:411-422 | the document ends with a dl listing the referenced comments in order |
| ConversionProps.WalkFindsDeferred | mammoth/lib/document-to-html.js:52-56 | the walk collects only deferred nodes |
| ConversionProps.IdsAt | mammoth/lib/document-to-html.js:52-56 | the ids in walk order are the ids of the deferred nodes |
| ConversionProps.ResolvedOwn | mammoth/lib/document-to-html.js:58-61 | each deferred node's value is its own image's conversion |
| ConversionProps.ImagesResolvedToOwn | mammoth/lib/document-to-html.js:46-84 | every image in the document is replaced by its own conversion |
| ConversionProps.IgnoredParagraphFails | mammoth/lib/document-to-html.js:141-146 | as written, a paragraph mapped to ignore throws and the conversion fails |
| ConversionProps.IntendedParagraph | mammoth/lib/document-to-html.js:141-146 | the corrected conversion drops such a paragraph and leaves the state as it was, and otherwise agrees |
| Converter.DocumentConversion.constructor | mammoth/lib/document-to-html.js:27-44 | the conversion starts with note 1, no references or messages, and the shared counter |
| Converter.DocumentConversion.ConvertElements | mammoth/lib/document-to-html.js:87-91 | the loop produces the specification's nodes and state |
| Converter.DocumentConversion.ElementToHtml | mammoth/lib/document-to-html.js:93-104 | dispatch produces the specification's nodes and state |
| Converter.DocumentConversion.ParagraphHtml | mammoth/lib/document-to-html.js:106-116 | as specified |
| Converter.DocumentConversion.RunHtml | mammoth/lib/document-to-html.js:157-223 | as specified |
| Converter.DocumentConversion.HyperlinkHtml | mammoth/lib/document-to-html.js:432-441 | as specified |
| Converter.DocumentConversion.NoteReferenceHtml | mammoth/lib/document-to-html.js:448-456 | as specified, pushing the reference and incrementing the note number |
| Converter.DocumentConversion.NoteHtml | mammoth/lib/document-to-html.js:457-466 | as specified |
| Converter.DocumentConversion.CommentReferenceHtml | mammoth/lib/document-to-html.js:353-367 | as specified, pushing the referenced comment |
| Converter.DocumentConversion.ImageHtml | mammoth/lib/document-to-html.js:482-494 | a deferred node with the next id, incrementing the shared counter |
| Converter.DocumentConversion.TableHtml | mammoth/lib/document-to-html.js:291-295 | as specified |
| Converter.DocumentConversion.TableChildren | mammoth/lib/document-to-html.js:297-328 | as specified |
| Converter.DocumentConversion.RowHtml | mammoth/lib/document-to-html.js:330-335 | as specified |
| Converter.DocumentConversion.CellHtml | mammoth/lib/document-to-html.js:337-351 | as specified |
| Converter.DocumentConversion.BreakHtml | mammoth/lib/document-to-html.js:393-408 | as specified, changing nothing |
| Converter.DocumentConversion.CommentHtml | mammoth/lib/document-to-html.js:369-391 | as specified |
| Converter.DocumentConversion.ConvertComments | mammoth/lib/document-to-html.js:419-421 | the loop produces the specification's nodes and state |
| Converter.DocumentConversion.DocumentHtml | mammoth/lib/document-to-html.js:411-423 | as specified |
| Converter.DocumentConversion.ConvertToHtml | mammoth/lib/document-to-html.js:46-84 | the tree is built, deferred nodes are resolved and replaced, and failures are appended to the messages |
| Converter.ResolveDeferred | mammoth/lib/document-to-html.js:58-61 | the loop gives the specified values and failure messages |
| Converter.Convert | mammoth/lib/document-to-html.js:14-25 | a conversion from options and a document, using and advancing the shared counter |
| CodeParagraphs.TransformParagraph | mammoth/wordjs/docx2html.js:33-51 | a matching paragraph gets style code/Code and nothing else changes, and otherwise it is returned as it is |
| CodeParagraphs.RunFound | mammoth/wordjs/docx2html.js:34 | every direct run is among the runs tested |
| CodeParagraphs.NestedRunFound | mammoth/wordjs/docx2html.js:34 | every run one level down is among the runs tested |
| CodeParagraphs.RunsInReachable | mammoth/wordjs/docx2html.js:34 | a run is among those tested exactly when it is reachable at any depth through paragraphs, runs, hyperlinks and tables |
| CodeParagraphs.DeepFontlessRunUnchanged | mammoth/wordjs/docx2html.js:33-51 | a run without a font at any depth leaves the paragraph as it is |
| CodeParagraphs.NoRunsUnchanged | mammoth/wordjs/docx2html.js:39 | a paragraph without runs is unchanged |
| CodeParagraphs.FontlessRunUnchanged | mammoth/wordjs/docx2html.js:39-41 | one run without a font leaves the paragraph unchanged |
| CodeParagraphs.NestedFontlessRunUnchanged | mammoth/wordjs/docx2html.js:39-41 | the same for a run inside a hyperlink |
| CodeParagraphs.CaseInsensitive | mammoth/wordjs/docx2html.js:40 | the font test ignores case |
| CodeParagraphs.CourierNew | mammoth/wordjs/docx2html.js:4 | "Courier New" is monospace |

## Left out

- The figure/figcaption move (html2docx.js:230-235): it changes only where captions sit, before the top-level query.
- build_paragraph, build_heading and build_table: their internals are not part of this model. A chosen node's block records its tag, heading level and node.
- The numbering configuration and the Packer call of html2docx: these are constant data and serialisation.
- DOMParser, innerHTML and getComputedStyle are browser services. They are parameters (`Parser`, and `display` on each element).
- Image fetching (`buffer_from_url`, `get_intrinsic_image_size`) and `canvas_to_image`: the natural sizes and snapshot sizes are parameters. Image data is not modelled.
- console.log.
- Heading CSS aliasing: htmlPathForParagraph writes the style into the rule's own element object, which later paragraphs share. The model returns a modified copy.
- Html.simplify and the HTML writer (document-to-html.js:78-83): the model stops at the tree after replaceDeferred.
- preserveColors, preserveFonts and findHtmlPathForRunProperty: they are declared but never used.
- A top-level element other than a document, and "comment"-type elements in a body: the converter is only entered with a document.
- fontSize values whose decimal text uses an exponent (below 1e-6 or at least 1e21), and NaN: the fraction is truncated directly.
- The warning message text: a warning is kept as a structured message.
- The async mapSeries is modelled as a sequential loop.
- The image converter is a parameter. A rejected promise is the converter returning None and adds an error message.
- transforms.paragraph and getDescendantsOfType: that module is not part of this model. Descendant runs are collected in a fixed order, which does not matter since every run is tested.
- Unicode case folding: lower-casing is ASCII.
- Note resolution: a reference to a missing note is modelled as a thrown exception at resolution time.
- The html-paths module is not part of this model. Its `wrap` is modelled as: nest the generated nodes in the path's elements, and drop them without generating for `ignore`.
- Code paragraphs: the transform is stated on one paragraph, not applied over the document tree.
- Units.ToNumber: unary plus is modelled for "", an optional sign with decimal digits, and "0x" hex. JavaScript's Number also reads fractions, exponents, `Infinity`, and "0b" and "0o" prefixes, and toString(16) then writes a fraction or "Infinity". For these channels the model gives "NaN", where the source gives, for example, "7f.8" for `rgb(127.5,0,0)`. Floating point is not modelled.
- Units.ToHex: COLORS is a plain object, so names inherited from Object.prototype, such as "toString" or "constructor", pass the `COLORS[str] != null` test and return a function. The model treats them as ordinary text.
- ImageSizing.InferSize: when the intrinsic dimension the aspect ratio divides by is 0, JavaScript computes Infinity or NaN and goes on with it. The model returns None, and the image gets no transformation.
- ImageSizing.ScaleDown: image sizes are exact reals, so the rounding of double arithmetic in the aspect-ratio product and in the scale factor is not modelled.
- RunCssReadBack.RunCssReadBack: the round trip requires that the colour, highlight, shading and font values hold no ';' (`NoSemicolons`). A font name such as "A;font-weight:bold" splits into extra declarations that can set or clear the flags. The HTML writer and DOMParser between mammoth and parse_style are taken to pass the style attribute through unchanged.
- Units.ToHalfPoint: numbers are unbounded integers. parseInt, Math.ceil and Number#toString work on doubles, which are exact only up to 2^53 and overflow to Infinity; the model reads any digit string exactly.

## Findings

| source | as written | input that shows it | evidently intended | confidence | as-written member | corrected member |
|---|---|---|---|---|---|---|
| html2docx.js:513-514 | parse_style is called on every child that is not text, a link, an image or a canvas, including comment nodes, which have no getAttribute | a paragraph `<p><!-- note --></p>` | comment nodes are skipped | not executed | RunBuilder.CommentInParagraphThrows | RunBuilder.AsWrittenAgrees |
| mammoth/lib/document-to-html.js:141-146 | the first element of a matched rule's path is read through `_elements[0]`, which the ignore path does not have | a style map `p => !` (ignore) with any paragraph | the paragraph is dropped, as a run mapped to ignore is | not executed | ConversionProps.IgnoredParagraphFails | ConversionProps.IntendedParagraph |
