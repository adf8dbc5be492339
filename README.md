# Rio core logic in Dafny

This project models six pieces of sequential logic from the Rio web-app framework
and proves properties about them. Each part is one Dafny module.

- **DesignApplication** (`design_application.dfy`) covers the frontend theming
  primitives:
  - the *switcheroo* classes that select an element's colour set;
  - `applyFillToSVG`, which turns a fill into an SVG `fill`/`opacity` pair. Gradient
    and image fills also append a `<linearGradient>` or `<pattern>` to `<defs>`;
  - the icon loader, with its per-name promise cache and its `data-rio-icon` race
    guard. `applyIcon` is split at its `await` into `Begin` and `Complete`, so that
    interleavings of several calls can be stated.
- **SessionMatcher** (`session_matcher.dfy`) covers finding the pairs of components
  that reconciliation merges:
  - key matches, found in rounds;
  - then topological matches;
  - a duplicate key is reported as a `DuplicateKey` error.
- **Sessions** (`session.py` bookkeeping, in `session.dfy`) covers:
  - the dirty-component set and `_register_dirty_component`;
  - the build loop of `_refresh_sync`, with its limit of five builds per component,
    and its mount diff;
  - `_reconcile_component`, plus `values_equal` in **SessionValues**
    (`session_values.dfy`);
  - font registration;
  - collecting and saving dirty user settings;
  - the `_transport` setter and `_close`.
- **SessionSettings** (`session_settings.dfy`) covers the browser's flat settings
  keys. A key `<section>:<attr>` is split at its last colon into a `section:<name>`
  dictionary on load, and rebuilt from the section name on save. Root entries and
  section dictionaries share one dictionary in the source. They are two maps here,
  because a key that lands in the root never contains a colon and a section name
  always does.
- **Calendar** (`calendar.dfy`) covers month and year navigation, day selection and
  the placement of header and days in the seven-column grid.
- **LayoutExplanation** (`layout_explanation.dfy`) covers the dev-tools explanation of
  a component's size as a first-match decision over case tags.
- **LayoutSubpage** (`layout_subpage.dfy`) covers the dev-tools layout controls: the
  segmented switch, the size controls and the alignment controls.
- **Deprecations** (`deprecations.dfy`) covers renaming and remapping deprecated
  keyword arguments and tagging deprecated callables.

Some things are outside what Dafny can see. The model takes them as parameters:
- `css` stands for `colorToCssString`;
- `freshId` for `generateUniqueId`;
- `nameSource` for the random font names;
- `host` for serving a file as an asset;
- `build`, `populate` and `live` for what building a component does, what its
  `on_populate` handlers mark dirty, and whether it is still in the component tree;
- `daysInMonth` and `weekdayOfFirst` for `calendar.monthrange` and `date.weekday`.

`common.dfy` holds the `Option`/`Result` wrappers and small string helpers. The
helpers are `NatToString` with its round trip, and `rpartition` on a character.

## Model

| member | source | states |
|---|---|---|
| DesignApplication.RemoveSwitcheroos | frontend/code/designApplication.ts:13-27 | exactly the eleven switcheroo classes leave the class list; style, attributes, content and `<defs>` are untouched |
| DesignApplication.ApplySwitcheroo | frontend/code/designApplication.ts:29-67 | the class list loses every switcheroo class and gains only the chosen one (none for "keep"); only a custom set writes the four `--rio-custom-*` properties, with the converted colours |
| DesignApplication.AtMostOneSwitcheroo | frontend/code/designApplication.ts:13-45 | after the call at most one switcheroo class is present, and it is the one added; a class that is neither listed nor added is present exactly when it was before |
| DesignApplication.SwitcherooAdds | frontend/code/designApplication.ts:37-66 | "keep" leaves no switcheroo class; a name adds exactly `rio-switcheroo-<name>`; a custom set adds exactly `rio-switcheroo-custom` |
| DesignApplication.SecondSwitcherooWins | frontend/code/designApplication.ts:34-66 | two calls leave the same class list as the second call alone, when the first added one of the listed classes |
| DesignApplication.CustomVariablesPersist | frontend/code/designApplication.ts:47-63 | a custom set leaves the four properties with its colours; a later named set neither clears nor changes them, and a named set never writes the style |
| DesignApplication.GradientStopsInOrder | frontend/code/designApplication.ts:230-247 | a gradient has one stop per input pair, in input order, with id `<gradientId>-stop-<i>` for i = 0, 1, …, the pair's offset, colour channels times 255 and the alpha as is |
| DesignApplication.StopIdsDistinct | frontend/code/designApplication.ts:245 | different stop numbers give different stop ids |
| DesignApplication.CreateLinearGradient | frontend/code/designApplication.ts:218-250 | the loop with counter `ii` builds exactly the gradient whose stops the lemma above describes |
| DesignApplication.AppendToDefs | frontend/code/designApplication.ts:155-162 | `<defs>` is created only when absent, and the node is appended after its existing children; nothing else changes |
| DesignApplication.CreateLinearGradientFill | frontend/code/designApplication.ts:145-166 | returns `url(#<id>)` and appends exactly one gradient with that id to `<defs>` |
| DesignApplication.CreateImageFill | frontend/code/designApplication.ts:168-212 | returns `url(#<id>)` and appends exactly one pattern with that id, holding the image with the fill mode's aspect ratio |
| DesignApplication.PatternHoldsOneImage | frontend/code/designApplication.ts:173-198 | the pattern holds exactly one image, with the given URL; stretch gives `none`, fit gives `xMidYMid meet`, zoom gives `xMidYMid slice` |
| DesignApplication.FillOpacity | frontend/code/designApplication.ts:81-142 | resolution fails exactly for an unknown fill tag; "keep" and "dim" give the local text colour; the opacity is `0.4` exactly for "dim" and `1` in every other successful case |
| DesignApplication.FillValues | frontend/code/designApplication.ts:99-134 | a palette name gives `var(--rio-global-<n>-bg)`; a bare colour and a colour set go through the colour conversion; a `<defs>` child is added exactly for gradient and image fills, and the fill then points at its fresh id |
| DesignApplication.ApplyFillToSvg | frontend/code/designApplication.ts:69-143 | succeeds exactly when the resolution does; on success `fill` and `opacity` are overwritten and the resolved child is appended to `<defs>`; an unknown tag fails before the style or `<defs>` is written |
| DesignApplication.IconLoader.Begin | frontend/code/designApplication.ts:257-278 | a cached name reuses its pending request and fetches nothing; a miss starts one fetch of `/rio/icon/<name>` and caches it before the await; the target is stamped with the name |
| DesignApplication.IconLoader.Complete | frontend/code/designApplication.ts:281-301 | a failed request drops the cache entry and leaves the target alone; a success leaves the target alone unless its stamp still names the icon, and then removes the stamp and sets the content and the SVG fill |
| DesignApplication.SameIconFetchedOnce | frontend/code/designApplication.ts:258-269 | two requests for one icon share one request and cause at most one fetch |
| DesignApplication.LateIconIgnored | frontend/code/designApplication.ts:271-293 | when a target asks for two icons and the second settles first, the first's late completion is ignored and the target keeps the second icon |
| DesignApplication.FailedIconRefetched | frontend/code/designApplication.ts:284-288 | after a failed fetch the next request for the same icon fetches it again |
| SessionMatcher.RegisterByKey | rio/session.py:1562-1580 | unkeyed components are ignored; re-registering the same component is allowed; a different component under a registered key is a `DuplicateKey` error naming both; otherwise only that key is added |
| SessionMatcher.Matcher.Register | rio/session.py:1562-1580 | the map of the given side becomes what `register_component_by_key` makes of it, and fails exactly when that does, with the same error; the other map and the topological matches are unchanged; the maps stay valid (each entry under its own key, from its own tree); a failure is a genuine clash within one tree |
| SessionMatcher.Matcher.KeyScan | rio/session.py:1582-1593 | on success every keyed component of the subtree (the component itself only if asked) has its key registered on that side; only that side's map changes, and it only grows; the topological matches are unchanged; a failure is a genuine clash |
| SessionMatcher.Matcher.Chain | rio/session.py:1595-1639 | matching the children of two matched components keeps the by-key maps and the topological matches valid; the maps only grow and the earlier topological matches stay a prefix; a failure is a genuine clash within one tree |
| SessionMatcher.Matcher.Worker | rio/session.py:1641-1675 | a component paired with itself changes nothing; two different unkeyed components of one type are appended as the next topological match, and no other pair adds one at this level; earlier matches stay a prefix; on success both components' keys are registered; maps stay valid; a failure is a genuine clash |
| SessionMatcher.MatchKey | rio/session.py:1687-1706 | for one key present in both trees: the registered pair is yielded after the earlier pairs exactly when it is two different components of one type, and otherwise the pairs are returned unchanged; every yielded pair is a match of one key from the old and the new tree, with no key yielded twice |
| SessionMatcher.MatchKeys | rio/session.py:1687-1706 | one round over the newly shared keys keeps the incoming key pairs as a prefix, adds only pairs under keys of that round, keeps all pairs valid with no key yielded twice, and handles only keys of that round |
| SessionMatcher.MatchAllKeys | rio/session.py:1679-1713 | the rounds terminate (the matched keys only grow, within the keys of the old tree) and the key pairs are valid and of distinct keys |
| SessionMatcher.MatchOrder | rio/session.py:1703-1717 | key pairs followed by topological pairs: every pair is valid; no keyed pair follows an unkeyed one; no two pairs share a key |
| SessionMatcher.FindMatches | rio/session.py:1540-1717 | on success every pair is two different components of one type with equal keys, old from the old tree and new from the new; key matches come before topological ones; each key at most once; a failure is two different components of one tree with the same key |
| SessionValues.ValuesEqual | rio/session.py:1475-1515 | lists of different length, or a list against a non-list, are unequal; equal-length lists compare element by element; a component equals an old one if they are the same, or if the new one was reconciled into it |
| SessionValues.ValuesEqualReflexive | rio/session.py:1475-1515 | every value equals itself, whatever was reconciled |
| SessionValues.ValuesEqualWithoutReconciliation | rio/session.py:1475-1515 | with nothing reconciled, `values_equal` is plain structural equality |
| Sessions.Session.RegisterDirtyComponent | rio/session.py:910-937 | the component is always added; with the flag, its direct children are added recursively, only below fundamental components |
| Sessions.DirtyClosureInSubtree | rio/session.py:926-937 | only components of the given subtree are ever marked |
| Sessions.FundamentalChildrenMarked | rio/session.py:928-937 | every direct child of a fundamental component is marked along with it |
| Sessions.Session.BuildOnce | rio/session.py:993-1080 | `on_populate` fires exactly when the component is not in the populated set, which it then joins; its handlers' marks exclude the component itself; the build fails exactly when it marked its own component dirty; otherwise the reconciliation marks are added, the old components reconciliation merged into leave the populated set (re-armed), and the new build boundary is stored |
| Sessions.Session.ReconciledChildRepopulates | rio/session.py:993-1002 | a child whose `on_populate` had fired, merged into by its parent's reconciliation and then built, fires its handlers again: their marks, except the child itself, are dirty afterwards |
| Sessions.Session.Visit | rio/session.py:968-1080 | a visit beyond the fifth fails with `RebuiltTooOften` and a count of 6; a `BuildChangedState` error names a non-fundamental component whose build marked itself dirty; otherwise the refresh invariant is kept (including which components have `on_populate` armed off) and one more of the finitely many build slots is used up; the previous children are recorded by the corrected `RecordBefore` of Findings row 3 |
| Sessions.Session.BuildDirty | rio/session.py:960-1080 | the loop terminates with the dirty set empty and no component built more than 5 times, or with exactly the error that stopped it; each built component's boundary is its last build's; its boundary before the refresh is recorded (the corrected recording of Findings row 3); a populated component was populated before or built; one that was populated before or built and never re-armed by a build's reconciliation is populated; one re-armed and never built is not |
| Sessions.AddChildren | rio/session.py:1097-1111 | one step of collecting children; a fundamental component contributes none |
| Sessions.MountDiff | rio/session.py:1094-1115 | mounted is the children now minus the children before, unmounted the reverse, over the visited live non-fundamental components; the two are disjoint |
| Sessions.Session.RefreshSync | rio/session.py:939-1115 | on success: nothing is dirty; no component is built more than 5 times; a component has `on_populate` armed off only if it had before or was built, and does whenever that holds and no build's reconciliation re-armed it; a re-armed component that was not built stays armed; each built component's boundary is its last build's and every other boundary is unchanged; the visited set is the visited live components; mounted = children now − children at the start, unmounted the reverse (the corrected recording of Findings row 3); on failure the error as above |
| Sessions.RecordBefore | rio/session.py:1065-1067 | the children recorded for a component are those it had when it was first built in this refresh, and later builds keep them |
| Sessions.RecordBeforeAsWritten | rio/session.py:1065-1067 | the recording as written: the component's entry becomes its current children, whether or not it had one, and every other entry is kept |
| Sessions.AsWrittenReportsWrongUnmount | rio/session.py:1065-1067 | as written, a component built twice in one refresh reports the children of its first build as unmounted, instead of those it had before the refresh |
| Sessions.AnyChanged | rio/session.py:1518-1527 | the loop that stops at the first change says "changed" exactly when some overridden property is unequal in the sense of `values_equal` |
| Sessions.SameValuesUnchanged | rio/session.py:1518-1527 | taking over values that are already there never counts as a change |
| Sessions.ReconcileAgainUnchanged | rio/session.py:1518-1534 | after the merge, reconciling with the same new component again finds nothing changed |
| Sessions.Session.ReconcileComponent | rio/session.py:1403-1538 | the overridden names are (old set-by-creator − old assigned-after-creation) ∪ new set-by-creator; old then holds the new values for exactly those names and keeps all others; `on_populate` of the old component is re-armed (its id leaves the populated set, nothing else does); the old component is marked dirty exactly when some overridden property was unequal |
| Sessions.FontUrls | rio/session.py:1741-1752 | always four URLs, in the order regular, bold, italic, bold italic; none exactly where the font has no file for that style |
| Sessions.Present | rio/session.py:1741-1754 | the hosted files are exactly the files the font has |
| Sessions.HostFontFiles | rio/session.py:1741-1754 | the loop over the four style slots fills the URL buffer and the asset list as the two functions above describe |
| Sessions.AsWrittenFontNamesCollide | rio/session.py:1732-1738 | as written, the first random candidate is kept even when a registered font already has that name |
| Sessions.FontNameAsWritten | rio/session.py:1732-1738 | the name as written is the first candidate, whatever names the registered fonts have |
| Sessions.FreshName | rio/session.py:1732-1738 | the name loop as intended draws from the name source until a name no registered font has, and terminates |
| Sessions.FreshNameKeepsNamesDistinct | rio/session.py:1732-1760 | giving a new font a name no font has keeps all registered names distinct |
| Sessions.Session.RegisterFont | rio/session.py:1719-1763 | a registered font returns its cached name and registers nothing new; a new font gets a name no other font has (the corrected name choice `FreshName` of Findings row 4; the name as written is `FontNameAsWritten`), its present files as assets and one registration with its four URLs |
| Sessions.FontRegisteredOnce | rio/session.py:1726-1729 | registering the same font twice gives the same name and at most one registration |
| Sessions.DirtyEntries | rio/session.py:1855-1865 | the listed attachments all have dirty attributes |
| Sessions.DirtyEntriesComplete | rio/session.py:1855-1865 | an attachment is listed, with its dirty attributes, exactly when it has any |
| Sessions.Session.CollectUnsaved | rio/session.py:1851-1865 | the attachments with dirty attributes are listed with those attributes, in order, and every dirty set is cleared |
| Sessions.WriteEntry | rio/session.py:1937-1941 | one attachment writes the flat key and value of each of its dirty attributes into the delta |
| Sessions.Session.SaveSettingsInBrowser | rio/session.py:1919-1944 | the delta is the union of the entries' flat keys, later entries winning |
| Sessions.EntryDeltaKeys | rio/session.py:1928-1941 | a key is in an entry's delta exactly when one of its attributes is written under it |
| Sessions.DeltaKeys | rio/session.py:1925-1941 | a key is in the delta exactly when some entry writes an attribute under it |
| Sessions.DeltaLastWriterWins | rio/session.py:1925-1941 | a key's value in the delta is that of the last entry writing it |
| Sessions.Session.SaveSettingsNow | rio/session.py:1848-1876 | nothing is sent when no attachment is dirty; otherwise the delta of exactly the dirty attributes; all dirty sets are cleared |
| Sessions.Session.SetTransport | rio/session.py:351-367 | the old transport, if any, is closed; the session is connected exactly when the new transport is present; a disconnect records its time |
| Sessions.Session.Close | rio/session.py:569-608 | a second close does nothing; the first fires the close event once, saves the dirty settings, closes the transport if there is one and then timestamps the disconnect, leaves the session disconnected and notifies the server once |
| Sessions.Session.BeginClose | rio/session.py:571-582 | the session is marked closed, the close event fires once and the settings are saved; the session stays valid |
| Sessions.Session.FinishClose | rio/session.py:604-608 | the transport is dropped (closed and the disconnect timestamped if present, timestamp kept otherwise) and the server is notified once |
| Sessions.CloseTwice | rio/session.py:569-574 | closing twice fires the close event and the server notice once each |
| SessionSettings.Placement | rio/session.py:1814-1824 | a key without a colon lands in the root under itself; no key lands under a name containing a colon |
| SessionSettings.FlatKey | rio/session.py:1928-1938 | a class without a section writes the bare attribute name; otherwise the key is the section name, one colon, then the attribute name |
| SessionSettings.FlatKeyRoundTrip | rio/session.py:1816-1824 | saving then loading returns an attribute without a colon to its own section, or to the root for a class without a section |
| SessionSettings.ColonInAttributeMisfiled | rio/session.py:1816 | an attribute name with a colon is filed under another section on reload: `s` + `a:b` comes back in `section:s:a` as `b` |
| SessionSettings.FlatKeyInjective | rio/session.py:1928-1938 | within one section different attributes get different flat keys |
| SessionSettings.SectionDeltaContents | rio/session.py:1927-1941 | a section's delta holds each written attribute's flat key with its value and no other key, and each key round-trips to its section |
| SessionSettings.SectionDeltaStep | rio/session.py:1937-1941 | writing one more attribute adds exactly its flat key |
| SessionSettings.LookupStore | rio/session.py:1818-1826 | a store is seen by a lookup of the same slot and by no other, whether or not the section existed |
| SessionSettings.LoadedHoldsLastValue | rio/session.py:1812-1826 | every slot of the loaded document holds the last value the client sent for it; slots no key lands in stay empty |
| SessionSettings.LoadBrowserSettings | rio/session.py:1809-1826 | the loop builds exactly the document the lemma above describes |
| Calendar.Calendar.constructor | rio/components/calendar.py:109-111 | the displayed month and year are those of the selected date |
| Calendar.Calendar.SwitchToPreviousMonth | rio/components/calendar.py:113-118 | the month is decremented; 0 becomes December of the previous year; the selected date is unchanged |
| Calendar.NextMonthAsWritten | rio/components/calendar.py:120-125 | as written, every month but November steps one month on (December to month 13), and November steps two months on to January of the next year |
| Calendar.PreviousMonthStepsBack | rio/components/calendar.py:113-118 | from a real month the step gives a real month exactly one month earlier |
| Calendar.Calendar.SwitchToNextMonthAsWritten | rio/components/calendar.py:120-125 | the source's step: increment, with wrap test `== 12` |
| Calendar.NextMonthAsWrittenSkipsDecember | rio/components/calendar.py:120-125 | as written, November goes to January of the next year, two months on, and December goes to month 13, which no date accepts |
| Calendar.NextMonthAsWrittenAgrees | rio/components/calendar.py:120-125 | for January to October the written and the intended steps agree |
| Calendar.DecemberThenNextFailsBuild | rio/components/calendar.py:120-180 | as written, "next month" in December makes the following `build` fail on the invalid month |
| Calendar.Calendar.SwitchToNextMonth | rio/components/calendar.py:120-125 | the intended step, with month 13 wrapping to January of the next year |
| Calendar.NextMonthStepsForward | rio/components/calendar.py:113-125 | the intended step gives a real month exactly one month later, and undoes the previous-month step both ways |
| Calendar.NavigationKeepsMonthReal | rio/components/calendar.py:113-131 | with the intended step, any sequence of button presses keeps the month real and moves it by the sum of the presses (±1 month, ±12 for a year) |
| Calendar.Calendar.SwitchToPreviousYear | rio/components/calendar.py:127-128 | only the year changes, by −1 |
| Calendar.Calendar.SwitchToNextYear | rio/components/calendar.py:130-131 | only the year changes, by +1 |
| Calendar.Calendar.SelectDay | rio/components/calendar.py:133-139 | the date becomes (displayed year, displayed month, day) exactly when that date is valid; otherwise it raises and nothing changes |
| Calendar.DayShift | rio/components/calendar.py:241-244 | the shift is in 0..6 |
| Calendar.CellOf | rio/components/calendar.py:246-257 | a day's column is in 0..6, its row at least 4, and row and column encode day + shift in base 7 |
| Calendar.CellsDistinct | rio/components/calendar.py:246-257 | distinct days get distinct cells |
| Calendar.DayUnderItsWeekday | rio/components/calendar.py:228-257 | each day sits in the column whose header names its weekday |
| Calendar.HeaderIndex | rio/components/calendar.py:228-233 | the day-name index a header column reads is always a weekday index in 0..6, whatever the first day of the week |
| Calendar.ShortName | rio/components/calendar.py:218-222 | an empty day name gives an empty label rather than a crash; otherwise the first character, upper-cased |
| Calendar.Calendar.Build | rio/components/calendar.py:147-297 | fails on an invalid displayed month, or on a header index beyond the client's day names; otherwise seven header labels and one cell per day, placed by `CellOf`, selected exactly when it is the selected date |
| Calendar.Calendar.IsSelected | rio/components/calendar.py:264-268 | a day is selected exactly when the displayed year and month with that day is the selected date |
| Calendar.AtMostOneSelected | rio/components/calendar.py:263-268 | at most one day of the grid is selected |
| Calendar.SelectedDayIsMarked | rio/components/calendar.py:263-268 | in the selected date's own month, its day is selected |
| LayoutExplanation.GrowCountCountsGrowers | rio/debug/dev_tools/layout_explanation.py:74-85 | the grower count is the number of the parent's children whose size on the axis is "grow" |
| LayoutExplanation.CountGrowers | rio/debug/dev_tools/layout_explanation.py:74-78 | the loop counts the growers on both axes at once |
| LayoutExplanation.GrowerAmongChildren | rio/debug/dev_tools/layout_explanation.py:74-100 | a growing component among the children is counted, so the no-growers case cannot apply to it |
| LayoutExplanation.GrowerCase | rio/debug/dev_tools/layout_explanation.py:88-100 | the four grower outcomes are exclusive and exhaustive: none grow / others grow / several including this one / only this one |
| LayoutExplanation.AllocationCaseOf | rio/debug/dev_tools/layout_explanation.py:7-103 | an unknown parent wins over everything; a top-level component comes next; the four single containers next; any other kind that is not a Row or Column gets the generic case |
| LayoutExplanation.RowColumnCaseOrder | rio/debug/dev_tools/layout_explanation.py:55-100 | within a Row or Column: minor axis, then only child, then no superfluous space (parent allocated < natural + 0.1), then the grower analysis |
| LayoutExplanation.GrowerAnalysis | rio/debug/dev_tools/layout_explanation.py:74-100 | the grower outcome depends only on the number of growing children and on whether the component grows |
| LayoutExplanation.MinorAxisIgnoresChildren | rio/debug/dev_tools/layout_explanation.py:55-61 | on the minor axis the outcome is the same whatever the parent's children |
| LayoutExplanation.AlignmentCaseOf | rio/debug/dev_tools/layout_explanation.py:149-156 | "matches" exactly when allocated < natural + margin + 0.1; otherwise "uses all" exactly without an alignment on the axis, else aligned with that alignment |
| LayoutExplanation.AlignmentCaseAsWritten | rio/debug/dev_tools/layout_explanation.py:149-156 | as written: "matches" exactly when allocated < natural + margin + 0.1; otherwise "uses all" exactly without `align_x`, else aligned with `align_x`, whichever axis is explained |
| LayoutExplanation.AsWrittenAgreesOnWidth | rio/debug/dev_tools/layout_explanation.py:149-156 | on the width axis the source's `align_x` test is the intended one |
| LayoutExplanation.AsWrittenIgnoresVerticalAlignment | rio/debug/dev_tools/layout_explanation.py:151-156 | as written, a component aligned only vertically is said to use all of its height |
| LayoutExplanation.SizeWarningOf | rio/debug/dev_tools/layout_explanation.py:159-165 | the warning appears exactly when the size is a number below the natural size, and then carries both |
| LayoutExplanation.Explanation | rio/debug/dev_tools/layout_explanation.py:139-165 | the explanation opens with the allocation remark and the space handed down, a separator, then the alignment remark of the axis explained (the corrected remark of Findings row 2); the size warning is last and present exactly when due |
| LayoutExplanation.ExplainInAxis | rio/debug/dev_tools/layout_explanation.py:106-168 | the buffer receives exactly the pieces of `Explanation`, in that order, so on the height axis the alignment remark reads `align_y` (the corrected remark of Findings row 2) |
| LayoutExplanation.ExplainLayout | rio/debug/dev_tools/layout_explanation.py:171-194 | the result is the width explanation, then the height explanation, both with the corrected alignment remark of Findings row 2 |
| LayoutSubpage.MultiSwitch.SelectValue | rio/debug/dev_tools/layout_subpage.py:21-23 | the pressed option becomes the selected value |
| LayoutSubpage.MultiSwitch.Build | rio/debug/dev_tools/layout_subpage.py:25-67 | one segment per option, in order; the first rounds corners 0 and 3, the last corners 1 and 2, others stay 0; exactly the segments showing the selected value are active |
| LayoutSubpage.SegmentCorners | rio/debug/dev_tools/layout_subpage.py:28-35 | a single option is rounded on all four corners; middle options have square corners |
| LayoutSubpage.CheckSizeValue | rio/debug/dev_tools/layout_subpage.py:108-112 | only a number, "natural" or "grow" is accepted, and it is kept as given |
| LayoutSubpage.SizeControls.OnMultiSwitchChange | rio/debug/dev_tools/layout_subpage.py:114-122 | an option starting with "natural " gives natural, "grow" gives grow, anything else the number 0 |
| LayoutSubpage.SizeControls.OnNumberInputChange | rio/debug/dev_tools/layout_subpage.py:124-130 | the size becomes the entered number |
| LayoutSubpage.SizeControls.Build | rio/debug/dev_tools/layout_subpage.py:132-161 | the switch offers natural, grow and custom and selects one of them; a number input is shown exactly for a numeric size; feeding the selected option back keeps natural and grow and turns a custom size into 0 |
| LayoutSubpage.SelectionRoundTrip | rio/debug/dev_tools/layout_subpage.py:114-150 | the option selected for a value maps back to that value for natural and grow, and to 0 for a number |
| LayoutSubpage.ExactlyOneSizeOption | rio/debug/dev_tools/layout_subpage.py:133-156 | the three option names are distinct and the selected one is among them |
| LayoutSubpage.AlignmentControls.OnSwitchChange | rio/debug/dev_tools/layout_subpage.py:172-178 | switching on gives 0.5, switching off gives no alignment |
| LayoutSubpage.AlignmentControls.OnSliderChange | rio/debug/dev_tools/layout_subpage.py:180-182 | the alignment becomes the slider's value |
| LayoutSubpage.AlignmentViewOf | rio/debug/dev_tools/layout_subpage.py:184-214 | the switch is on and a slider over [0, 1] holding the value is shown exactly when an alignment is set |
| LayoutSubpage.AlignmentControls.Build | rio/debug/dev_tools/layout_subpage.py:184-214 | the switch is on exactly when the controls hold an alignment, and then a slider over [0, 1] shows it; otherwise no slider |
| LayoutSubpage.SwitchRoundTrip | rio/debug/dev_tools/layout_subpage.py:172-208 | toggling and rebuilding shows the switch as toggled, with a centred slider when on and none when off |
| Deprecations.RemapKwargs | rio/deprecations.py:103-117 | the loop renames the pairs in mapping order and issues one warning for each old name present when its pair is processed |
| Deprecations.UnmentionedKeysUnchanged | rio/deprecations.py:108-112 | keys named by no pair are neither added, removed nor changed |
| Deprecations.IndependentRenames | rio/deprecations.py:108-112 | without cascading, a present old name disappears and its value appears under the new name; an absent old name changes nothing |
| Deprecations.IndependentWarnings | rio/deprecations.py:111-117 | without cascading, there is exactly one warning per old name present, in mapping order |
| Deprecations.RenameOverwrites | rio/deprecations.py:110 | an existing value under the new name is overwritten |
| Deprecations.ChainedRenamesCascade | rio/deprecations.py:108-110 | pairs run in order, so `a`→`b` then `b`→`c` moves a value from `a` to `c`, with two warnings |
| Deprecations.OnlyKey | rio/deprecations.py:86 | the key a one-entry dict unpacks to is its only key |
| Deprecations.RemapParameters | rio/deprecations.py:77-98 | the wrapper pops each present old parameter and inserts the single entry its remap function returns, warning once; any other number of entries fails the unpacking |
| Deprecations.FailureIsFinal | rio/deprecations.py:80-94 | once an unpacking fails, the wrapper's outcome is that failure |
| Deprecations.RemapSingleParameter | rio/deprecations.py:80-94 | a remapped parameter ends up under the chosen name with the returned value, and the old name is gone |
| Deprecations.RemapUnpackFails | rio/deprecations.py:86 | a remap result with no entry, or with several, makes the wrapper fail |
| Deprecations.CallRenamed | rio/deprecations.py:43-50 | the wrapped function is called with the renamed keyword arguments |
| Deprecations.ParametersRenamedOnClass | rio/deprecations.py:36-41 | on a component class the mapping is merged into `_deprecated_parameter_names_` (later pairs win, other entries kept) and the same class is returned |
| Deprecations.Deprecated | rio/deprecations.py:15-21 | both attributes are set on the callable, and the same callable is returned |

## Left out

- Everything asynchronous or external is left out: event loops, tasks, locks and their cancellation, message handlers, the websocket transport, webview windows and files. `await`ed calls are modelled by what they change: `_remote_register_font` becomes the `fontRequests` log, the session-close handler the `closeEvents` counter and `_after_session_closed` the `afterClosedNotices` counter.
- Sessions.Session.Close: the `close_remote_session` branch (destroying the window, `_remote_close_session`) and task cancellation are not modelled.
- Sessions.Session.RefreshSync: the returned visited set omits the descendants of newly mounted components that the source adds after the mount diff (rio/session.py:1119-1135).
- Sessions.Session.RefreshSync: building a component is the `build` parameter, which says what the build marks dirty and its build boundary. So `safe_build`, `_reconcile_tree`, weak builders and build generations are left out. What a build marks dirty is taken net of the new components that reconciliation merges into old ones and removes from the dirty set again (rio/session.py:1321-1324). The order in which `set.pop` picks components is left open.
- Sessions.Session.RefreshSync: for a component that reconciliation re-arms and that is also built in the same refresh, whether `on_populate` ends armed depends on which came last. The contract leaves that case open; `BuildOnce` and `ReconcileComponent` state each step exactly.
- Sessions.Session.BuildDirty: leaves the same case open as `RefreshSync` above.
- Sessions.Session.Visit: records the previous children with the corrected `RecordBefore` of Findings row 3, so mounted and unmounted are relative to the children at the start of the refresh; the recording as written is `RecordBeforeAsWritten`.
- Sessions.Session.BuildDirty: records the previous children with the corrected `RecordBefore` of Findings row 3, like `Visit`.
- Sessions.Session.RefreshSync: its mount diff uses the corrected `RecordBefore` of Findings row 3, like `Visit`.
- Sessions.Session.RefreshSync: termination is proved under a finite `universe` of components, which every build's marks stay inside.
- Sessions.Session.ReconcileComponent: the handling of attribute bindings (rio/session.py:1440-1473) is left out, and so are the type and key assertions. Property values are plain values, component references and lists. The `_on_populate_triggered_` flags of all components are the session's `populateTriggered` set of ids: a component is in it exactly when its flag is set.
- SessionMatcher.FindMatches: the source yields pairs lazily. Its only caller, `_reconcile_tree`, collects them into a list before using any (rio/session.py:1290-1294), so returning all pairs, or the error alone, is what the caller sees.
- SessionValues.ValuesEqualReflexive: values are plain integers, component references and lists. Python's `==` is not reflexive for NaN or for a custom `__eq__`, and such values are not modelled.
- SessionMatcher: `_extract_components` is represented by attributes that hold only components. The attributes walked are those of the new component, and a missing old attribute counts as empty.
- Sessions.Session.RegisterFont: picks the name with the corrected `FreshName` of Findings row 4, so a new font never takes a registered font's name; as written the first candidate is kept (`FontNameAsWritten`).
- Sessions.Session.RegisterFont: the random names are the `nameSource` parameter, which must never repeat a name. Hosting a file as an asset is the `host` parameter.
- The window branch of `_load_user_settings`, `_load_user_settings_from_settings_json`, `_save_settings_now_in_window`, `_last_settings_save_time` and the JSON serialisation of values are left out. Setting values are given as their JSON text.
- Sessions.UserSettings: an attachment's values are constant in the model, since the modelled operations only read them.
- `_apply_theme`, `_host_and_get_fill_as_css_variables`, `navigate_to` and `_serialize_fill` are left out: they rest on colour arithmetic, floating point or URL joining in code that is not part of this model.
- The DOM and `fetch` are left out in the frontend. `colorToCssString` is the `css` parameter and `generateUniqueId` the `freshId` parameter. A stop carries its scaled channels as reals, not their decimal text, and the gradient's rotation carries only its angle. `Complete` assumes the icon's markup holds an `<svg>`.
- Calendar: the month title's `strftime`, the theme colours and the `on_change` event are left out. `calendar.monthrange` and `date.weekday` are inputs (28..31 days; weekday 0..6).
- Calendar.ShortName: upper-cases the ASCII letters only; the Unicode case mapping of `str.upper` is not modelled.
- LayoutExplanation.ExplainInAxis: uses the corrected alignment remark of Findings row 2 (`align_y` on the height axis); the remark as written is `AlignmentCaseAsWritten`.
- LayoutExplanation.ExplainLayout: inherits the corrected alignment remark from `ExplainInAxis`.
- LayoutExplanation: the English text becomes case tags carrying the numbers that would be shown, and the parent's class becomes an abstract kind. Sizes are reals standing for the source's doubles, so comparisons such as `allocated < natural + 0.1` are exact here and can differ from the floating-point result at a rounding boundary. Fetching the layout from the client is an input, as are the session's components by id and whether the component is the root.
- LayoutSubpage: `HelpAnchor` and `LayoutSubpage` are left out. They compose widgets and call `_update_target_attribute`, which assigns an attribute and schedules a refresh. Colours, ripples and the `on_change` event calls are left out too.
- Deprecations: each warning is a record in the returned list, not a `warnings.warn` call, and the message text is left out. `functools.wraps` and positional arguments are left out.

## Findings

| source | as written | input that shows it | evidently intended | confidence | as-written member | corrected member |
|---|---|---|---|---|---|---|
| rio/components/calendar.py:120-125 | the next-month wrap tests `== 12` after incrementing | displayed month 11 goes to January of the next year; displayed month 12 goes to 13, and the next `build` raises on `date(year, 13, 1)` | wrap when the month reaches 13 | high, not executed | Calendar.NextMonthAsWrittenSkipsDecember | Calendar.Calendar.SwitchToNextMonth |
| rio/debug/dev_tools/layout_explanation.py:151-156 | the alignment remark tests `align_x` on both axes | height explanation of a component with `align_x=None`, `align_y=0` and room to spare | use `align_y` for the height | high, not executed | LayoutExplanation.AsWrittenIgnoresVerticalAlignment | LayoutExplanation.AlignmentCaseOf |
| rio/session.py:1065-1067 | the previous children are recorded at every build of a component in one refresh, overwriting the earlier record | a component with child 10 before the refresh is built with child 11, then with child 12: 11 is reported unmounted and 10 never is | record the children a component had before the refresh, at its first build | medium, not executed | Sessions.AsWrittenReportsWrongUnmount | Sessions.RecordBefore |
| rio/session.py:1732-1738 | a random font name is checked against the dict keyed by fonts, so no candidate is ever rejected | a new font whose first candidate equals the name of a registered font gets that name too | retry until the name is not taken by a registered font | medium, not executed | Sessions.AsWrittenFontNamesCollide | Sessions.FreshName |
