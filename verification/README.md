# WedgeDesk helpdesk core in Dafny

This project models the decision logic of the WedgeDesk helpdesk plugin and proves properties of it. It covers two parts.

**The ticket listing** (`shd_helpdesk_listing` and `shd_get_block_columns`):
- per-block start offsets snapped to a page boundary inside the block;
- `so_<block>` sort tokens resolved against the sortable-column registry;
- the `field`/`filter` quick filter;
- the action icons of each row, driven by ticket status, ownership and a set of granted capabilities;
- the names and profile links of starter, assignee and last respondent;
- pruning of blocks;
- subject prefixes built from custom-field values;
- the reduction of the filter menu to options in use;
- the column catalogue of each block.

**Custom-field administration** (`shd_admin_custom_save`, `shd_admin_custom_move`, `shd_admin_cf_change_types`):
- normalisation of the edit form;
- the type-change relation;
- migration of option maps, which keeps old keys and lists them as inactive;
- display-order maintenance on delete, create and move.

Database tables are immutable maps:
- field definitions by id, each with its display order;
- stored values by post and field;
- department requirement rows by field and department.

Permissions are a set of granted capabilities. Rendering is a parameter. Errors are a `Result`.

PHP behaviour the code relies on is written out in module `Php`:
- `empty()` on strings;
- `(int)` casts;
- the canonical-integer rule for array keys;
- `trim`, `explode` and `implode`.

Modules, one per file:
- `Results`
- `Php`
- `Pagination`
- `Sorting`
- `QuickFilter`
- `Blocks`
- `RowActions`
- `Identities`
- `SubjectPrefix`
- `FilterInUse`
- `FieldTypes`
- `OptionMaps`
- `FieldForm`
- `FieldStore`
- `FieldSave`

## Model

| member | source | states |
|---|---|---|
| `Php.IntCastOfIntText` | wedgedesk/src/WedgeDesk-TicketGrids.php:463-464 | casting an integer's own decimal text back with `(int)` gives that integer |
| `Php.CanonicalKey` | wedgedesk/src/WedgeDesk-TicketGrids.php:867-878 | a stored text names integer key n only when it is exactly n's decimal text, as PHP array keys behave |
| `Php.CanonicalKeyIff` | wedgedesk/src/WedgeDesk-TicketGrids.php:867-878 | a text is the key n exactly when it equals n's decimal text (both directions) |
| `Php.ImplodeExplode` | wedgedesk/src/WedgeDesk-TicketGrids.php:828-831 | exploding and imploding with one separator gives the text back |
| `Php.ExplodeImplode` | wedgedesk/src/WedgeDesk-AdminCustomField.php:384 | joining separator-free pieces and exploding them again gives the same pieces |
| `Pagination.LastPageStart` | wedgedesk/src/WedgeDesk-TicketGrids.php:358-359 | the start of the last page is page-aligned and inside a non-empty block, and is 0 for an empty block |
| `Pagination.ClampStart` | wedgedesk/src/WedgeDesk-TicketGrids.php:356-361 | the snapped start is a non-negative multiple of the page size; it is below the count when there are rows and 0 when there are none; the requested row (moved inside the block) lies on the page it starts |
| `Pagination.ClampKeepsAlignedStart` | wedgedesk/src/WedgeDesk-TicketGrids.php:360-361 | a page-aligned start inside the block is kept unchanged |
| `Pagination.ClampIdempotent` | wedgedesk/src/WedgeDesk-TicketGrids.php:356-361 | snapping an already snapped start changes nothing |
| `Pagination.ClampExamples` | wedgedesk/src/WedgeDesk-TicketGrids.php:356-361 | 23 rows in pages of 10 asked for 25 start at 20; 20 rows start at 10; a negative start gives 0; 17 gives 10 |
| `Pagination.ReclampAfterFilter` | wedgedesk/src/WedgeDesk-TicketGrids.php:516-520 | after a filtered recount, a start at or past the new count moves to the last page and any other start stays |
| `Pagination.ReclampMatchesClamp` | wedgedesk/src/WedgeDesk-TicketGrids.php:516-520 | on a start the first pass produced, the second pass agrees with snapping against the filtered count |
| `Pagination.BlockWindow` | wedgedesk/src/WedgeDesk-TicketGrids.php:341-370 | a block viewed on its own starts at 0 with the site page size; otherwise the start is snapped into the block; the `st_` parameter is kept exactly when the start is not 0, and then holds the start |
| `Pagination.WindowSurvivesLink` | wedgedesk/src/WedgeDesk-TicketGrids.php:366-369 | following a link that carries the sanitised start parameter lands on the same window |
| `Sorting.ItemNamed` | wedgedesk/src/WedgeDesk-TicketGrids.php:373-420 | a token part found in the sortable-column registry is that entry's own key |
| `Sorting.DirectionNamed` | wedgedesk/src/WedgeDesk-TicketGrids.php:426 | a valid direction part is exactly `asc` or `desc` |
| `Sorting.ItemNamedInverse` | wedgedesk/src/WedgeDesk-TicketGrids.php:373-410 | every registry entry is found again from its key, which is non-empty and free of underscores |
| `Sorting.DirectionNamedInverse` | wedgedesk/src/WedgeDesk-TicketGrids.php:426 | both directions are found again from their names |
| `Sorting.ParseSort` | wedgedesk/src/WedgeDesk-TicketGrids.php:416-437 | the link is kept exactly when the token has one underscore not in first place, a registered item and a valid direction, and then the token is item, underscore, direction; an unknown item falls back to `updated`; a bad direction falls back to ascending; a malformed token gives `updated` with the listing's default direction |
| `Sorting.BlockSort` | wedgedesk/src/WedgeDesk-TicketGrids.php:414-445 | a request parameter is parsed when present; otherwise a non-empty stored preference is parsed; with neither, the block sorts by `updated` in the default direction without a link |
| `Sorting.SplitJoined` | wedgedesk/src/WedgeDesk-TicketGrids.php:416-418 | joining two underscore-free parts, the first non-empty, gives a well-formed token whose parts are those two |
| `Sorting.LinkTokenRoundTrip` | wedgedesk/src/WedgeDesk-TicketGrids.php:458-460 | every column-header link token resolves to its own item and direction, with the link kept |
| `Sorting.ParseValidExample` | wedgedesk/src/WedgeDesk-TicketGrids.php:416-447 | `urgency_desc` gives urgency, descending, link kept |
| `Sorting.ParseUnknownItemExample` | wedgedesk/src/WedgeDesk-TicketGrids.php:420-424 | `bogus_desc` gives updated, descending, no link |
| `Sorting.ParseBadDirectionExample` | wedgedesk/src/WedgeDesk-TicketGrids.php:426-430 | `urgency_up` gives urgency, ascending, no link |
| `Sorting.ParseNoUnderscoreExample` | wedgedesk/src/WedgeDesk-TicketGrids.php:432-437 | `urgency` in the closed-ticket listing gives updated, descending |
| `Sorting.ParseLeadingUnderscoreExample` | wedgedesk/src/WedgeDesk-TicketGrids.php:416-437 | `_desc` in the main listing gives updated, ascending |
| `Sorting.ParseTwoUnderscoresExample` | wedgedesk/src/WedgeDesk-TicketGrids.php:416-437 | `a_b_c` in the recycle bin gives updated, descending |
| `QuickFilter.PlanFilter` | wedgedesk/src/WedgeDesk-TicketGrids.php:463-479 | filtering is on exactly when both cast parameters are positive, on that field and value |
| `QuickFilter.Fragment` | wedgedesk/src/WedgeDesk-TicketGrids.php:465-478 | the link fragment is empty exactly when no filter is on |
| `QuickFilter.ReadFragmentOf` | wedgedesk/src/WedgeDesk-TicketGrids.php:467 | a fragment whose field text holds no `;` reads back as exactly its field and filter texts |
| `QuickFilter.FragmentParametersRoundTrip` | wedgedesk/src/WedgeDesk-TicketGrids.php:463-467 | the fragment of a filtered link reads back as the texts of its field and value, and casting those texts gives the same filter |
| `QuickFilter.PrefixLinkSelectsItsValue` | wedgedesk/src/WedgeDesk-TicketGrids.php:819 | the filter link of a subject prefix switches on a filter for that field and option key, which admits exactly the tickets storing the same value in that active field |
| `Blocks.BlockColumns` | wedgedesk/src/WedgeDesk-TicketGrids.php:909-998 | exactly the known block names get columns; they start with ticket id and name, end with actions, and repeat no column |
| `Blocks.ColumnVariants` | wedgedesk/src/WedgeDesk-TicketGrids.php:945-965 | the user view of the pending block hides the starter, which the staff view shows |
| `Blocks.RecycleBinColumns` | wedgedesk/src/WedgeDesk-TicketGrids.php:975-994 | recycle-bin blocks show all replies, never plain replies |
| `Blocks.Prune` | wedgedesk/src/WedgeDesk-TicketGrids.php:680-684 | exactly the surviving blocks are kept (displayable, and with tickets, required or collapsed), each as many times as it occurs in the input |
| `Blocks.PruneKeepsOrder` | wedgedesk/src/WedgeDesk-TicketGrids.php:680-684 | the kept blocks stay in their original relative order |
| `Blocks.PruneIdempotent` | wedgedesk/src/WedgeDesk-TicketGrids.php:680-684 | pruning a pruned list changes nothing |
| `Blocks.FetchedBlocksWithTicketsSurvive` | wedgedesk/src/WedgeDesk-TicketGrids.php:680-684 | a fetched block with tickets survives; a block that is not displayable never does |
| `RowActions.AssignLabelFor` | wedgedesk/src/WedgeDesk-TicketGrids.php:605-610 | an assign icon exists exactly with assign-any, or with assign-own on an unassigned or own-assigned ticket; the label is unassign exactly when the ticket is the viewer's under own-only permission; reassign exactly under assign-any on an assigned ticket |
| `RowActions.RowActionsFor` | wedgedesk/src/WedgeDesk-TicketGrids.php:549-620 | each icon is shown exactly when its status, ownership and capability conditions hold: move-department on every row; unresolve only on closed tickets; restore and permanent delete only on deleted ones; resolve, to-topic, delete and assign only on the others |
| `RowActions.MoreGrantsShowMore` | wedgedesk/src/WedgeDesk-TicketGrids.php:584-620 | more capabilities never take an icon away |
| `RowActions.NoGrantsNoIcons` | wedgedesk/src/WedgeDesk-TicketGrids.php:584-620 | without capabilities a row shows no icon |
| `Identities.ResolveStarter` | wedgedesk/src/WedgeDesk-TicketGrids.php:643-652 | the starter is linked exactly when the profile is loaded, with the current name; otherwise the row's name is shown unlinked |
| `Identities.ResolveAssigned` | wedgedesk/src/WedgeDesk-TicketGrids.php:654-664 | the assignee is linked exactly when the id is non-zero and the profile is loaded; otherwise the unassigned marker is shown as name and link |
| `Identities.ResolveRespondent` | wedgedesk/src/WedgeDesk-TicketGrids.php:666-676 | the last respondent is linked exactly when the id is non-zero and the profile is loaded; otherwise the row's name is shown unlinked |
| `Identities.OnlyOwnProfilesMatter` | wedgedesk/src/WedgeDesk-TicketGrids.php:636-678 | a ticket's people depend only on the profiles of its own three members |
| `Identities.StarterAndRespondentAgreeOnMembers` | wedgedesk/src/WedgeDesk-TicketGrids.php:643-676 | for a non-zero member id, starter and respondent resolve alike |
| `SubjectPrefix.OptionLabel` | wedgedesk/src/WedgeDesk-TicketGrids.php:816-819 | a caption is found only for a stored value that is the text of an option key, and it is that option's caption |
| `SubjectPrefix.OptionLabelOfKey` | wedgedesk/src/WedgeDesk-TicketGrids.php:816-819 | every option key's own text finds that option's caption |
| `SubjectPrefix.MultiLabels` | wedgedesk/src/WedgeDesk-TicketGrids.php:828-832 | a non-empty multi-select value contributes labels ending in a space |
| `SubjectPrefix.PlainPart` | wedgedesk/src/WedgeDesk-TicketGrids.php:822-835 | every plain prefix contribution is non-empty and ends in a space |
| `SubjectPrefix.FilterEntry` | wedgedesk/src/WedgeDesk-TicketGrids.php:819 | a filter entry is bracketed |
| `SubjectPrefix.FilterPart` | wedgedesk/src/WedgeDesk-TicketGrids.php:809-820 | the filter links are empty exactly when no filterable field contributes, and otherwise start with a bracket |
| `SubjectPrefix.PlainGroup` | wedgedesk/src/WedgeDesk-TicketGrids.php:809-835 | the plain group is empty exactly when no plain field contributes, and otherwise ends in a space |
| `SubjectPrefix.NothingContributes` | wedgedesk/src/WedgeDesk-TicketGrids.php:809-844 | no field contributes exactly when both parts are empty |
| `SubjectPrefix.Bracketed` | wedgedesk/src/WedgeDesk-TicketGrids.php:840-841 | a non-empty plain group becomes bracket, group, closing bracket and space; an empty one stays empty |
| `SubjectPrefix.JoinedParts` | wedgedesk/src/WedgeDesk-TicketGrids.php:843-844 | joining the filter links and the bracketed group keeps the first in front and the closing bracket at the end |
| `SubjectPrefix.PrefixFor` | wedgedesk/src/WedgeDesk-TicketGrids.php:838-844 | the prefix is empty exactly when no field contributes; otherwise it starts with a bracket and with the filter links, and ends with the bracketed plain group when there is one |
| `SubjectPrefix.Compose` | wedgedesk/src/WedgeDesk-TicketGrids.php:846-850 | subject and link both get the same prefix in front |
| `SubjectPrefix.ComposeChangesOnlyWithValues` | wedgedesk/src/WedgeDesk-TicketGrids.php:809-850 | with no contributing field, subject and link are unchanged; otherwise both get one non-empty prefix and keep their original text as the tail |
| `SubjectPrefix.FilterHits` | wedgedesk/src/WedgeDesk-TicketGrids.php:809-820 | a filter link is made exactly for the filterable fields whose non-empty value names an option, with that option's caption |
| `SubjectPrefix.FilterPartIsHits` | wedgedesk/src/WedgeDesk-TicketGrids.php:809-820 | the filter part is one bracketed link per hit, in field order |
| `FilterInUse.KeptOptions` | wedgedesk/src/WedgeDesk-TicketGrids.php:876-878 | an option is kept exactly when some stored value of its field is its key's text, with its caption unchanged; anything kept means the field has a stored value |
| `FilterInUse.Reduce` | wedgedesk/src/WedgeDesk-TicketGrids.php:856-884 | a field stays exactly when it keeps at least one option, and then holds its name and its kept options |
| `FilterInUse.ReduceOffersUsed` | wedgedesk/src/WedgeDesk-TicketGrids.php:856-884 | an option is in the reduced menu exactly when it is in the full menu and some stored value of its field names its key; surviving fields keep their names, captions and at least one option |
| `FilterInUse.KeptTwice` | wedgedesk/src/WedgeDesk-TicketGrids.php:874-879 | keeping the used options twice keeps the same ones |
| `FilterInUse.ReduceIdempotent` | wedgedesk/src/WedgeDesk-TicketGrids.php:856-884 | reducing a reduced menu against the same values changes nothing |
| `FilterInUse.NonCanonicalValuesOfferNothing` | wedgedesk/src/WedgeDesk-TicketGrids.php:867-881 | a field whose stored texts are none of them an integer's canonical text is dropped |
| `FieldTypes.ChangeTypes` | wedgedesk/src/WedgeDesk-AdminCustomField.php:685-708 | the all-types query lists all eight types; an unknown type gets none; every type may stay as it is; no type is listed twice |
| `FieldTypes.EveryTypeListed` | wedgedesk/src/WedgeDesk-AdminCustomField.php:689-690 | the all-types list holds every field type |
| `FieldTypes.CanBecomeIsWidening` | wedgedesk/src/WedgeDesk-AdminCustomField.php:691-704 | a type may become another exactly when both hold the same kind of value and the target is at least as wide |
| `FieldTypes.CanBecomePreorder` | wedgedesk/src/WedgeDesk-AdminCustomField.php:691-704 | the change relation is reflexive and transitive |
| `FieldTypes.ChangeDirections` | wedgedesk/src/WedgeDesk-AdminCustomField.php:691-704 | integer may become float but not back; float, checkbox and multi-select stay as they are; select and radio become exactly the option types; text and large text interchange |
| `FieldTypes.ChangeKeepsOptions` | wedgedesk/src/WedgeDesk-AdminCustomField.php:698-704 | a permitted change never moves between types with and without options |
| `OptionMaps.SubmitsLast` | wedgedesk/src/WedgeDesk-AdminCustomField.php:357-378 | the last submitted row adds exactly its own key, when kept, to the keys of the rows before it |
| `OptionMaps.CleanOptions` | wedgedesk/src/WedgeDesk-AdminCustomField.php:357-378 | the cleaned options hold exactly the keys of rows with an integer key and a non-blank caption, each with a submitted caption, the last row winning |
| `OptionMaps.MinOf` | wedgedesk/src/WedgeDesk-AdminCustomField.php:484 | the least key of a non-empty key set |
| `OptionMaps.SortedKeys` | wedgedesk/src/WedgeDesk-AdminCustomField.php:484-494 | a set of keys listed once each in ascending order |
| `OptionMaps.Migrate` | wedgedesk/src/WedgeDesk-AdminCustomField.php:481-502 | every stored key stays (comparing keys as PHP 8 does); submitted captions win; other captions are kept; inactive is exactly the stored keys not submitted, ascending |
| `OptionMaps.MigrateOffersSubmitted` | wedgedesk/src/WedgeDesk-AdminCustomField.php:481-502 | after a migration the active options are exactly the submitted ones |
| `OptionMaps.MigrateIdempotent` | wedgedesk/src/WedgeDesk-AdminCustomField.php:481-502 | saving the same submission twice gives the same option map |
| `OptionMaps.MigrateExample` | wedgedesk/src/WedgeDesk-AdminCustomField.php:481-502 | stored {1: A, 2: B} with submitted {1: A, 3: C} gives {1: A, 2: B, 3: C} with 2 inactive |
| `OptionMaps.SavedOptions` | wedgedesk/src/WedgeDesk-AdminCustomField.php:355-502 | an option field with a stored map is migrated, keeping its keys and offering exactly the submission; otherwise a map is stored exactly when the new type has options and rows were sent, and it is the cleaned submission |
| `OptionMaps.MultiDefaults` | wedgedesk/src/WedgeDesk-AdminCustomField.php:371-372 | every ticked multi-select default is a submitted key |
| `OptionMaps.MultiDefaultsAreOptions` | wedgedesk/src/WedgeDesk-AdminCustomField.php:371-384 | every multi-select default is one of the stored options |
| `FieldForm.Clamp` | wedgedesk/src/WedgeDesk-AdminCustomField.php:299-303 | a value is limited to the bounds and kept when inside them |
| `FieldForm.FieldLength` | wedgedesk/src/WedgeDesk-AdminCustomField.php:299-303 | the length lies in 0..32000, is the cast value when that is in range, and is 0 when absent |
| `FieldForm.NormalisePlacement` | wedgedesk/src/WedgeDesk-AdminCustomField.php:308-311 | the prefix-filter placement is stored only for select and radio and otherwise becomes prefix; a missing or unknown placement becomes details; other legal placements are kept |
| `FieldForm.PlacementStable` | wedgedesk/src/WedgeDesk-AdminCustomField.php:308-311 | normalising a stored placement again changes nothing |
| `FieldForm.BbcFlag` | wedgedesk/src/WedgeDesk-AdminCustomField.php:293 | bulletin-board code is on exactly when requested for a text or large-text field |
| `FieldForm.IconAsWritten` | wedgedesk/src/WedgeDesk-AdminCustomField.php:312 | a posted icon is kept exactly when it passes the pattern as PHP applies it, which also admits a final newline |
| `FieldForm.Icon` | wedgedesk/src/WedgeDesk-AdminCustomField.php:312 | a kept icon consists of pattern characters only, and every such posted name is kept |
| `FieldForm.IconTrailingNewline` | wedgedesk/src/WedgeDesk-AdminCustomField.php:312 | `cf.png` followed by a newline is stored as written and refused as intended |
| `FieldForm.IconTestsAgree` | wedgedesk/src/WedgeDesk-AdminCustomField.php:312 | for names not ending in a newline, the two tests agree |
| `FieldForm.IconAgainstAsWritten` | wedgedesk/src/WedgeDesk-AdminCustomField.php:312 | the corrected icon differs from the as-written one only for a posted name ending in a newline: the pattern keeps it, the corrected test drops it |
| `FieldForm.FormVisibility` | wedgedesk/src/WedgeDesk-AdminCustomField.php:315-322 | edit is granted exactly when both see and edit are posted, for users and staff alike, so edit implies see |
| `FieldForm.VisibilityRoundTrip` | wedgedesk/src/WedgeDesk-TicketGrids.php:746-747 | the listing reads back the visibility the form stored: admins always; staff by the staff flag; others by the user flag |
| `FieldForm.Requirement` | wedgedesk/src/WedgeDesk-AdminCustomField.php:339-350 | a multi-select requirement lies in 0..100 and within the option count, and is the cast value when that is in range; any other type gives 0 or 1 by the tick box |
| `FieldForm.Requirements` | wedgedesk/src/WedgeDesk-AdminCustomField.php:334-351 | exactly the departments marked present get a requirement row; each stores the requirement of its last entry marked present (1 or 0 for a ticked or unticked box, the clamped count for a multi-select), within the bounds above |
| `FieldForm.DefaultValue` | wedgedesk/src/WedgeDesk-AdminCustomField.php:304-384 | checkbox gives 1 when ticked and nothing otherwise; large text gives rows and columns; select and radio give the chosen key exactly when it was submitted; multi-select gives its ticked keys comma-joined; the other types give nothing |
| `FieldForm.ChosenDefault` | wedgedesk/src/WedgeDesk-AdminCustomField.php:374-376 | a single-choice default is stored exactly when the chosen key is a kept option, as that key's text |
| `FieldForm.KeyTexts` | wedgedesk/src/WedgeDesk-AdminCustomField.php:384 | each key is written as its decimal text, in order |
| `FieldForm.MultiDefaultRoundTrip` | wedgedesk/src/WedgeDesk-AdminCustomField.php:384 | a stored multi-select default explodes back into one piece per key, each the canonical text of its key |
| `FieldStore.Delete` | wedgedesk/src/WedgeDesk-AdminCustomField.php:222-278 | an unknown id changes nothing; otherwise the field goes, the fields after it move up exactly one place and the rest keep theirs, and exactly its values and requirement rows go while the rest are untouched |
| `FieldStore.DeleteKeepsContiguous` | wedgedesk/src/WedgeDesk-AdminCustomField.php:222-278 | orders 0..n-1 become 0..n-2 with relative order kept |
| `FieldStore.ReplaceRequirements` | wedgedesk/src/WedgeDesk-AdminCustomField.php:431-452 | a field's requirement rows are replaced by the new ones and other fields' rows are kept |
| `FieldStore.Create` | wedgedesk/src/WedgeDesk-AdminCustomField.php:392-454 | a new field goes last with order equal to the field count and the given settings; other fields and values are unchanged; the new field's requirement rows are exactly the given ones and other fields' rows are kept; no id from the database is an error |
| `FieldStore.CreateKeepsContiguous` | wedgedesk/src/WedgeDesk-AdminCustomField.php:398-428 | orders 0..n-1 become 0..n |
| `FieldStore.Swap` | wedgedesk/src/WedgeDesk-AdminCustomField.php:604-624 | the field takes the destination order, the field there takes its old order, and nothing else changes |
| `FieldStore.MoveAsWritten` | wedgedesk/src/WedgeDesk-AdminCustomField.php:565-627 | a move happens exactly when there are fields, a direction, a known field with non-empty order and an occupied destination, and is then the swap |
| `FieldStore.Move` | wedgedesk/src/WedgeDesk-AdminCustomField.php:565-627 | a move happens exactly when there are fields, a direction, a known field and an occupied destination, and is then the swap; it agrees with the move as written wherever that one moves |
| `FieldStore.SwapKeepsContiguous` | wedgedesk/src/WedgeDesk-AdminCustomField.php:604-624 | swapping with an occupied place keeps orders contiguous |
| `FieldStore.MoveKeepsContiguous` | wedgedesk/src/WedgeDesk-AdminCustomField.php:565-627 | a move keeps orders contiguous |
| `FieldStore.SwapBack` | wedgedesk/src/WedgeDesk-AdminCustomField.php:604-624 | swapping with a neighbour and back restores every order |
| `FieldStore.MoveDownUp` | wedgedesk/src/WedgeDesk-AdminCustomField.php:565-627 | moving a field down and then up restores every order |
| `FieldStore.FirstFieldCannotMoveDown` | wedgedesk/src/WedgeDesk-AdminCustomField.php:595-596 | the field at order 0 is refused as written, though the intended move down succeeds |
| `FieldSave.Settings` | wedgedesk/src/WedgeDesk-AdminCustomField.php:291-322 | the stored settings have a length in 0..32000, bulletin-board code only for text types, prefix-filter placement only for select and radio, and an icon of pattern characters only, by the corrected icon test |
| `FieldSave.SettingsIconAgainstAsWritten` | wedgedesk/src/WedgeDesk-AdminCustomField.php:312 | the saved icon differs from what the pattern as written keeps only for a posted name ending in a newline, which the save stores as no icon |
| `FieldSave.SavedRequirements` | wedgedesk/src/WedgeDesk-AdminCustomField.php:334-389 | exactly the present departments get rows, each holding the requirement of its last present entry; a multi-select requirement never exceeds the submitted option count; other types store 0 or 1 |
| `FieldSave.SaveNew` | wedgedesk/src/WedgeDesk-AdminCustomField.php:392-454 | the save succeeds exactly when the type is a known one and the database gave a non-zero insert id; an unknown type is refused; a created field goes last with the posted type and its cleaned options, and no other field, value or other field's requirement row changes; its requirement rows are exactly the saved ones |
| `FieldSave.SaveExisting` | wedgedesk/src/WedgeDesk-AdminCustomField.php:456-557 | the save succeeds exactly when the field exists and its stored type may become the posted one; an unknown field is refused; a type change is refused exactly when the change relation does not allow it; an update keeps the field's order, the other fields, the values and the other fields' requirement rows, replaces its own rows by exactly the saved ones, and keeps every stored option key |
| `FieldSave.Save` | wedgedesk/src/WedgeDesk-AdminCustomField.php:215-558 | a delete request deletes; a cancel changes nothing; a blank name is refused; otherwise the field is created or updated |
| `FieldSave.SaveExistingKeepsContiguous` | wedgedesk/src/WedgeDesk-AdminCustomField.php:456-557 | an update keeps orders contiguous |
| `FieldSave.SaveNewKeepsContiguous` | wedgedesk/src/WedgeDesk-AdminCustomField.php:392-454 | a create keeps orders contiguous |
| `FieldSave.SaveKeepsContiguous` | wedgedesk/src/WedgeDesk-AdminCustomField.php:215-558 | every save keeps orders 0..n-1 |
| `FieldSave.SaveKeepsValues` | wedgedesk/src/WedgeDesk-AdminCustomField.php:215-558 | only a delete removes stored values, and only the deleted field's |
| `FieldSave.UpdateKeepsOptionKeys` | wedgedesk/src/WedgeDesk-AdminCustomField.php:481-502 | updating a field never drops a stored option key (comparing keys as PHP 8 does), so stored values keep naming an option |

## Left out

- Database access, sessions and redirects. Tables are maps; errors are `Result` values. A new field's id is a parameter.
- Transactional atomicity of a delete or move. This belongs to the database.
- Permission lookup. Capabilities are a given set, with one set for the ticket's department and one without department.
- Rendering: HTML and links, `htmlspecialchars`, `wedit::preparsecode`, `parse_bbc`, `censorText`, `timeformat`, page indexes (`shd_no_expand_pageindex`) and the `link_bits` URL fragments.
  - The filter link markup and the anchor removal of line 841 are parameters.
  - Name and description are stored as posted.
- `serialize`/`unserialize`. An option map is a map with an ordered inactive list.
- Member profiles. They are a partial map from id to name.
- `shd_admin_cf_icons`. It lists a directory.
- The numeric values of the `CFIELD_*` and `TICKET_STATUS_*` constants. They are not part of this model.
  - Types, placements and statuses are enumerations.
  - A posted type is known or unrecognised.
  - The loose `case false` of `shd_admin_cf_change_types` is an explicit all-types query.
- Line 296 of the form save is a comparison with no effect, so the posted type is never cast. The model takes the posted type as already classified.
- `default_select` is compared with option keys loosely. The model compares integers.
- The stale `$block_key` at TicketGrids.php line 697. It computes a value that is never used.
- `(int)` casts do not model exponent forms, hexadecimal or 64-bit saturation.
- Option keys are integers. Numeric keys that are not canonical integers (such as `1.5`) are not modelled.
- Subject prefix:
  - A select or radio value naming no option gives an empty caption, as PHP reads a missing index as null.
  - A checkbox always reads as ticked, since an unticked one stores an empty value and is skipped.
- `FilterInUse.Reduce` looks at every stored value of a field, not only those of the listed tickets, because the query at lines 858-864 does.
- `OptionMaps.Migrate`, `OptionMaps.SavedOptions`, `FieldSave.SaveExisting`, `FieldSave.UpdateKeepsOptionKeys` read the test `$k == 'inactive'` at AdminCustomField.php line 491 with PHP 8 comparison, where an integer key never equals that text. Under PHP 5 and 7, key 0 compares equal to it, so a stored option 0 that is not resubmitted is dropped: it is neither kept nor listed as inactive. The form numbers options from 1, so only a hand-built request reaches this.
- `FieldStore.Create` treats a missing insert id as an error that leaves the store unchanged. The source has already inserted the definition at that point and only skips the requirement rows.
- `FieldStore.MoveAsWritten` and `FieldStore.Move` assume no two fields share an order. The source indexes fields by order, so the last row read would win.
- `FieldSave.Settings` stores the icon by the corrected test `FieldForm.Icon`, so the save path models the repaired program: a posted name ending in one newline, which the pattern at AdminCustomField.php line 312 keeps, is saved as no icon. `FieldSave.SettingsIconAgainstAsWritten` states that this is the only difference.
- `Pagination.LastPageStart`, `Pagination.ClampStart`, `Pagination.ReclampAfterFilter` and `Pagination.BlockWindow` require a positive page size. A `blocks_<key>_count` preference or `items_per_page` of 0 makes the modulo at TicketGrids.php lines 359-361 fail with a division by zero; that error path is not modelled.
- `FieldForm.SeenBy` compares the visibility flags with `"1"` as exact text. PHP's loose `==` at TicketGrids.php line 747 also accepts numeric spellings such as `"01"`, which the form never stores.
- `Identities.ResolvePeople` only bundles the three resolutions and carries no contract of its own.

## Findings

| source | as written | input that shows it | evidently intended | confidence | as-written member | corrected member |
|---|---|---|---|---|---|---|
| wedgedesk/src/WedgeDesk-AdminCustomField.php:312 | the icon pattern ends in `$` without the `D` modifier, so a name followed by one newline passes | icon `cf.png` followed by a newline is stored with the newline | only names made entirely of letters, digits, dot, dash and underscore are stored | not executed | `FieldForm.IconTrailingNewline` | `FieldForm.Icon` |
| wedgedesk/src/WedgeDesk-AdminCustomField.php:595 | `empty()` on the field's order refuses a field at order 0 | fields 1 (order 0) and 2 (order 1): moving field 1 down is refused | any known field moves to an occupied neighbouring place | not executed | `FieldStore.FirstFieldCannotMoveDown` | `FieldStore.Move` |
