# GreenSight rules, modelled in Dafny

GreenSight is a Streamlit app for reporting illegal waste dumps. It comes as three near-duplicate page scripts: `finalversion.py`, `main_app.py` and `version.py`. Nearly all of each script is widgets, maps and CSV I/O. Between those calls sit a few rules, and this project states them and proves them:

- how a report row is stored, and how that row's longitude is drawn again;
- how the DBSCAN label vector becomes hotspot circles: one per non-noise label, centred at the members' mean, with radius the largest member distance (capped at 5 km in `finalversion.py`);
- how the Organize Cleanup page picks its target:
  - Closest Dump: the first report at the smallest distance;
  - Biggest Dump: the mean of a largest cluster;
  - Closest Dump stops when the geolocation widget gives no answer or an incomplete one; it has no row-count or noise guard, and an empty report file is an error;
  - Biggest Dump stops when there are fewer than 5 reports or when every row is noise; it does not use the location;
- how the View Analysis page of `finalversion.py` stops without a geolocation answer and fails on an empty report table (DBSCAN has no row-count guard there), and the Hotspot page of `main_app.py` stops below 5 reports;
- how dates are shown: `YYYYMMDD` text becomes `YYYY-MM-DD`;
- how the popup is built;
- how the accessibility-feature cell is encoded, and how its icons are decoded;
- how the Community page sorts, and the image file names.

Modules:

- `Wrappers`: Option and Result.
- `PyText`: Python slicing, `join` and `in` on strings.
- `Dates`.
- `Geometry`: coordinates, means, `np.max`.
- `Labels`: label post-processing.
- `Targeting`: Closest and Biggest Dump, shared by `finalversion.py` and `main_app.py`.
- `Sorting`: `sort_values`.
- `Reports`: the report row and the popup.
- One module per script: `FinalVersion`, `MainApp`, `Version`.

Some things are parameters of the model:

- DBSCAN's output is an input label sequence; `-1` is noise.
- The haversine distance is a function parameter `Distance`, in kilometres.
- `str()` of a float is a parameter `NumberText`.
- `os.path.exists` and base64 encoding are parameters of `Popup`.
- The geolocation widget's answer is a `Location` value.
- The current date is an argument of `Submit`.

Floats are exact reals.

The three scripts disagree on the stored sign of the longitude. `finalversion.py` stores the negated longitude and negates it again for display; `main_app.py` and `version.py` store it as entered, and `version.py` still negates it for display. The members named after the pages (`FinalVersion.DrawHotspots`, `FinalVersion.CleanupTarget`, `FinalVersion.Marker`, `Version.MarkerAsWritten`) compute what the code computes. Where that is wrong, a separately named member (`FinalVersion.DrawHotspotsCorrected`, `FinalVersion.CleanupTargetCorrected`, `FinalVersion.NearestReport`, `FinalVersion.HotspotOf`, `Version.Marker`) states the corrected behaviour. The discrepancies are listed under "Findings".

## Model

| member | source | states |
|---|---|---|
| PyText.Slice | finalversion.py:36 | `s[i:j]`: the exact slice when both bounds are in range; bounds past the end are clamped; an empty or inverted range gives `""` |
| PyText.From | finalversion.py:36 | `s[i:]`: the tail from `i`, or `""` when `i` is past the end |
| PyText.Join | finalversion.py:397 | `sep.join(parts)` (also at finalversion.py:427): no parts give `""`, and the result starts with the first part; `JoinContainsPart` and `PairInJoin` state what else it contains |
| PyText.Contains | finalversion.py:423-426 | Python's `t in s`: `t` occurs at some position of `s`, so it is no longer than `s` |
| PyText.JoinContainsPart | finalversion.py:397 | every part of a `sep.join(parts)` occurs as a substring of the result |
| PyText.PairInJoin | finalversion.py:397 | two adjacent characters of a comma-joined text, neither a comma, lie next to each other inside one of the parts |
| Dates.DateText | finalversion.py:36 | the display date inserts two dashes and loses no character; it starts with the (up to four) year characters and a dash |
| Dates.PdfDateText | finalversion.py:252 | the PDF date keeps at most 8 characters of the text and adds two dashes |
| Dates.DateTextRoundTrip | finalversion.py:34-36 | deleting the two dashes from the display date gives back the stored date text, for every dash-free text of any length |
| Dates.DateTextOfEightCharacters | version.py:18-20 | for an 8-character `YYYYMMDD` text, the display form has 10 characters: year, dash, month, dash, day, in place |
| Dates.PdfDateTextTruncates | finalversion.py:249-252 | the PDF date cell is the display form of the first 8 characters; for texts of at most 8 characters it equals the popup date |
| Geometry.Max | finalversion.py:175 | `np.max` bounds every distance and equals one of them |
| Geometry.Mean | finalversion.py:170 | `np.mean` of a non-empty column (also main_app.py:109): the sum over the count; `MeanWithinBounds` bounds it by the column's range |
| Geometry.Centroid | finalversion.py:170-171 | the mean latitude and the mean longitude of a non-empty point list (also main_app.py:109); `CentroidOfMirrored` and `MainApp.HotspotCoversMembers` state its properties |
| Geometry.DistancesTo | finalversion.py:174 | one distance per point, in point order, each from that point to the fixed centre (also main_app.py:112-115) |
| Geometry.MeanWithinBounds | finalversion.py:170 | a column mean lies between the column's minimum and maximum |
| Geometry.CentroidOfMirrored | finalversion.py:171 | negating the mean of the stored longitudes gives the mean of the negated longitudes |
| Labels.LabelSet | finalversion.py:167 | `set(labels)`: every row's label is in it, and nothing else |
| Labels.HotspotLabels | finalversion.py:167-168 | the labels the loop draws: exactly the occurring labels other than `-1`, never noise |
| Labels.MemberIndices | finalversion.py:169 | the mask `labels == l` selects exactly the rows carrying `l`, as many as `l` occurs |
| Labels.MemberIndicesIncreasing | finalversion.py:169 | the rows the mask selects stay in row order |
| Labels.Members | finalversion.py:169 | a cluster's points are the coordinates at exactly those rows |
| Labels.MembersOfOccurringLabel | finalversion.py:167-169 | every label produced by DBSCAN has at least one member, so its mean exists |
| Labels.Clustered | finalversion.py:329 | dropping noise rows keeps every non-noise label with its full count and leaves no `-1` |
| Labels.MostFrequent | finalversion.py:334-335 | `value_counts().idxmax()` returns a candidate whose count is at least every candidate's count |
| Labels.DistinctLabelsCount | finalversion.py:167-168 | circles with pairwise distinct labels number exactly as many as their labels |
| Labels.CoversAppend | finalversion.py:167-168 | drawing a circle for a new non-noise label keeps "one circle per handled non-noise label" |
| Targeting.UserPosition | finalversion.py:269-278 | on both Closest Dump pages (the same guard is main_app.py:149-160): no widget answer stops with the "unable to retrieve" error; a missing or null coordinate stops with "incomplete"; otherwise the position is the two values |
| Targeting.ArgMin | finalversion.py:284 | `np.argmin`: an index of a smallest distance, and no earlier index has that distance |
| Targeting.ClosestDump | main_app.py:163-190 | errs exactly on an empty report list; otherwise the distance reported is the chosen row's, no row is nearer, every earlier row is strictly farther, and the saved target is that row's stored coordinate |
| Targeting.BiggestDump | finalversion.py:322-340 | fewer than 5 rows stops; all-noise stops with its own error; otherwise a non-noise label of maximal count, reported with its count and the mean of its members |
| Targeting.BiggestDumpCentroidWithinCluster | main_app.py:211-212 | with at least five rows and one non-noise label Biggest Dump yields a target, and its latitude and longitude lie within the range of its cluster's coordinates |
| Sorting.SortBy | main_app.py:277 | `sort_values` returns a permutation of the rows |
| Sorting.SortBySorted | main_app.py:280 | and that permutation is in non-decreasing key order |
| Reports.PopupText | version.py:18-23 | the three text lines of a popup, starting with the date line |
| Reports.ShowsImage | version.py:24 | an image is attached exactly when the image cell is present, non-empty and names an existing file |
| Reports.Popup | version.py:16-28 | the popup starts with the three text lines; it is longer exactly when the image cell is present, non-empty and names an existing file, and the rest is then the image tag of that file |
| Reports.PopupShowsStoredCoordinates | version.py:22 | the popup contains `(lat, lon)` of the stored values, unmodified |
| Reports.UnderscoredInjective | version.py:72 | underscore-joined name fields without underscores of their own are recovered from the joined name |
| FinalVersion.InitialCoords | finalversion.py:61-68 | the form starts at the widget's coordinates when both are present and non-null, and at (34.0, 79.0) otherwise |
| FinalVersion.Submit | finalversion.py:77-88 | the stored row has the entered latitude, the negated longitude, and the image name built from the negated longitude, or `""` without an upload |
| FinalVersion.ImagePath | finalversion.py:81 | the image name is `images/…` ending in `.jpg`, built from the stored (negated) longitude |
| FinalVersion.Marker | finalversion.py:100 | a marker is drawn at the stored latitude and the negated stored longitude |
| FinalVersion.MarkerShowsEntered | finalversion.py:78-100 | negated on store and again on display, a submitted report is drawn at the coordinates entered |
| FinalVersion.NoUploadMeansTextPopup | finalversion.py:84-88 | a report submitted without an image gets exactly the three text lines as its popup |
| FinalVersion.CappedRadius | finalversion.py:176 | `min(d*1000, 5000)`: at most 5000, at most `d*1000`, and equal to one of them |
| FinalVersion.HotspotCenter | finalversion.py:170-171 | the circle's centre is the mirror image of the centroid of the members' stored coordinates: mean latitude, negated mean stored longitude |
| FinalVersion.HotspotAsWritten | finalversion.py:169-176 | the circle as written: label `l`, centred at the mean stored latitude and the negated mean stored longitude, radius at most 5000 m measured to the members at their stored coordinates |
| FinalVersion.HotspotAsWrittenRadius | finalversion.py:172-176 | as written, the radius reaches every member at its stored coordinates unless capped, and one stored member lies on its edge unless capped |
| FinalVersion.HotspotOf | finalversion.py:169-176 | corrected circle: same label, centre and cap as written, with the radius measured to the members as drawn |
| FinalVersion.HotspotRadius | finalversion.py:174-176 | corrected circle: the radius is at most 5000 m; it reaches every drawn member unless capped; when not capped, one member lies on its edge |
| FinalVersion.HotspotCentroid | finalversion.py:170-171 | the circle's centre is the mean of the members as drawn, and its latitude lies between the members' smallest and largest latitude |
| FinalVersion.StackedCluster | finalversion.py:169-176 | for reports all on one spot, the centre is that spot as drawn; the corrected radius measures the spot against itself, and the radius as written measures it against its mirror image |
| FinalVersion.StackedClusterRadius | finalversion.py:173-176 | five stacked Toronto reports get radius 0 once corrected, and the full 5000 m as written |
| FinalVersion.DrawHotspots | finalversion.py:126-183 | the page stops with the geolocation error when the widget gives no answer, and fails in `DBSCAN.fit` on an empty report table; those are its only failures; otherwise the loop over `set(labels)` draws one circle per distinct non-noise label, none for noise, each the circle as written for its label |
| FinalVersion.DrawHotspotsCorrected | finalversion.py:126-183 | corrected page: the same two failures and the same one circle per distinct non-noise label, each the corrected circle of its label |
| FinalVersion.NearestReport | finalversion.py:282-285 | corrected nearest report, with the user and each report compared as drawn: empty list errs; otherwise the first index at minimal distance, and the target is the stored coordinate |
| FinalVersion.ClosestDumpPicksMirror | finalversion.py:282-284 | a user standing on one of two reports is sent to the other by the distances as written, and to their own report by the corrected ones |
| FinalVersion.CleanupTarget | finalversion.py:264-368 | as written: Closest Dump stops with the position's own error without a complete position, fails on an empty file, otherwise a stored report whose stored coordinates are no farther from the user than any other's; Biggest Dump stops exactly when `BiggestDump` does, with its error, otherwise the mean of a largest cluster |
| FinalVersion.CleanupTargetCorrected | finalversion.py:264-368 | corrected: the same stops, and Closest Dump picks a stored report that, as drawn, is no farther from the user than any other; Biggest Dump is unchanged |
| FinalVersion.Checked | finalversion.py:389-393 | a feature is selected exactly when its box is checked |
| FinalVersion.AccessFeatures | finalversion.py:389-397 | the appends and `",".join` produce the names of the checked features in the fixed order, comma-separated |
| FinalVersion.Encoded | finalversion.py:389-397 | the cell is the checked features' names joined by commas; what it contains is stated by `EncodedContains` and `EncodedEmpty` |
| FinalVersion.Found | finalversion.py:422-426 | the features tested in order, each kept when its name occurs; stated by `FoundExactly` and `IconsOfEncoded` |
| FinalVersion.FoundExactly | finalversion.py:422-426 | a feature is decoded exactly when its name occurs in the cell; at most four are decoded |
| FinalVersion.FoundIn | finalversion.py:420-422 | a non-string cell decodes to no feature |
| FinalVersion.AccessIcons | finalversion.py:420-427 | `get_access_icons` yields the icons of the decoded features in the fixed order, space-separated, and `""` for a non-string cell |
| FinalVersion.EncodedContains | finalversion.py:389-397 | a feature name occurs in the stored cell if and only if its box was checked |
| FinalVersion.EncodedEmpty | finalversion.py:389-397 | the cell is empty if and only if no box is checked |
| FinalVersion.IconsOfEncoded | finalversion.py:420-429 | decoding the encoded cell gives back exactly the checked features in order; the icons are the same after an empty cell is read back as NaN |
| MainApp.Submit | main_app.py:73 | the stored row is `[lat, lon, date]` as entered |
| MainApp.MarkerShowsEntered | main_app.py:99 | with no negation anywhere, a submitted report is drawn at the coordinates entered |
| MainApp.HotspotOf | main_app.py:108-119 | the circle of label `l` is centred at its members' mean |
| MainApp.HotspotCoversMembers | main_app.py:108-119 | the uncapped circle, centred at the members' mean, reaches every member and passes through one; its centre is within the members' coordinate ranges |
| MainApp.DrawHotspots | main_app.py:84-123 | fewer than 5 reports stops (the message says 10); otherwise one circle per distinct non-noise label, each the hotspot of its label |
| MainApp.ClosestTarget | main_app.py:147-190 | Closest Dump on the Organize Cleanup page: stops with the position's own error without a complete position, fails on an empty file, and otherwise saves the stored position of a row that is no farther from the user than any other row |
| MainApp.PlanarDistanceSquared | main_app.py:279 | the squared planar distance the Community page sorts by is never negative |
| MainApp.ClosestTargetIsStoredRow | main_app.py:189-190 | the saved target is the chosen row's own latitude and longitude, and that row is a nearest one |
| MainApp.BiggestTargetIsClusterMean | main_app.py:234-235 | the saved target is the mean of the rows of a maximal non-noise cluster |
| MainApp.CommunityOrder | main_app.py:276-283 | always a permutation of the rows; "Most Recent" gives non-increasing dates; "Closest to Me" with a position gives non-decreasing distance; without a position the file order |
| MainApp.ImagePath | main_app.py:300-301 | the looked-up name is `uploaded_images/img_…` ending in `.jpg` |
| MainApp.ImagePathInjective | main_app.py:300-301 | the looked-up image name determines the row's date, latitude and longitude text |
| Version.InitialCoords | version.py:45-50 | the form starts at the widget's values, nulls included, when both keys are present, and at (34.0, -79.0) otherwise |
| Version.Submit | version.py:70-80 | the stored row keeps the coordinates as entered; the image path is `images/{date}_{lat}_{lon}.jpg` with an upload and `""` without |
| Version.ImagePath | version.py:72 | the image name is `images/…` ending in `.jpg` |
| Version.MarkerAsWritten | version.py:93 | as written, a marker is drawn at the negated stored longitude |
| Version.Marker | version.py:79-93 | corrected: a marker is drawn at the stored coordinates, which are the entered ones |
| Version.DefaultMarkerMirrored | version.py:93 | the default (34.0, -79.0) is drawn at (34.0, 79.0), and no entry off the prime meridian is drawn where it was entered |
| Version.MarkerShowsEntered | version.py:79 | drawn at the stored longitude, a report appears where it was entered |
| Version.SubmittedPopup | version.py:24-28 | without an upload the popup is the three lines; with one it carries the image exactly when the saved file exists; its coordinates are those entered |
| Version.ImagePathInjective | version.py:72 | the image name determines the date text and the coordinates' text |

## Left out

- DBSCAN (`sklearn.cluster.DBSCAN`): a library call. Its label vector is an input, and core and border points are not modelled.
- Haversine, `np.radians` and the factor 6371: the model takes a `Distance` function in kilometres. It proves nothing about metric properties.
- Floating point: arithmetic is exact over the reals.
- Float printing:
  - `str()` of a float is an uninterpreted `NumberText`;
  - the `:.2f`, `:.4f` and `:.5f` display formats are not modelled.
- Reverse geocoding (`get_address`): a network call.
- File and device I/O is not modelled. This covers:
  - CSV reads and appends;
  - writing uploaded images;
  - reading and base64-encoding images, which are parameters of `Popup`;
  - the FPDF page layout and output;
  - the cleanup-events file;
  - the geolocation widget, whose answer is an input;
  - `datetime.now()`, which supplies the date passed to `Submit`.
- Presentation is not modelled. This covers:
  - Streamlit widgets and messages;
  - folium maps, colours and marker sizes;
  - the HTML cards and share links;
  - `line_chart` and `describe`;
  - the WHMIS page.
- The `df['cluster']` and `df['distance']` columns written in place: the labels are passed beside the points, and the distance is a sort key.
- `np.sqrt` in the Community distance: `MainApp.CommunityOrder` sorts by the squared distance. The square root is monotone, so the order is the same.
- Labels.MostFrequent: says nothing about which of several equally frequent labels is returned, because pandas does not promise an order among ties. `Targeting.BiggestDump` inherits this.
- Sorting.SortBy: pandas' default sort is not stable, so only a permutation in key order is promised. The order among equal keys is not promised.
- The Community page of `finalversion.py` sorts "Most Recent" ascending (finalversion.py:442). Except for its icons, it is not part of this model.
- `main_app.py`'s report form has no fallback when the widget gives nothing, so `current_lat` is then undefined. This error path is not modelled.
- In `main_app.py`'s Community page, a position with a latitude but no longitude fails inside the distance computation. The model's user position is either complete or absent.
- `version.py` tests the widget's answer for truthiness. An answer carrying other keys but neither coordinate counts as "both keys missing", which is how the model treats it.
- An empty image path is stored as `""` and read back by pandas as NaN. The model stores `Some("")`; neither form shows an image.
- Reports.PopupText: an empty description is also read back as NaN, and the page then prints `nan` (finalversion.py:37, version.py:21). The model prints the description text unchanged, so for an empty description its popup lacks those three letters.
- The View Analysis page also stops when the report file does not exist (finalversion.py:122-124): file I/O, not modelled.
- Finding 2 below also affects the Closest Dump marker in `finalversion.py` (finalversion.py:298-301): it is drawn at the stored longitude. Markers are presentation and are not modelled.

## Findings

| source | as written | input that shows it | evidently intended | confidence | as-written member | corrected member |
|---|---|---|---|---|---|---|
| finalversion.py:173-174 | the hotspot radius measures each member at its stored (negated) longitude against a centre whose longitude was negated back to the drawn convention | five reports entered at (43.7, -79.4) and stored as (43.7, 79.4): each member is measured against its own mirror image, 158.8 degrees of longitude away, so the circle gets the full 5000 m cap instead of 0 | measure members and centre in the same convention, so the radius is the cluster's real extent | high (not executed) | FinalVersion.StackedClusterRadius | FinalVersion.HotspotRadius |
| finalversion.py:282-284 | Closest Dump measures from the user's true position to the stored (negated) report coordinates | a user at (43.7, -79.4) with reports entered at (43.7, -79.4) and (43.7, -79.0): the second report's mirror point is the nearer, so it is chosen over the report the user stands on | compare the user with the reports' true coordinates | high (not executed) | FinalVersion.ClosestDumpPicksMirror | FinalVersion.NearestReport |
| version.py:93 | markers are drawn at the negated longitude although the longitude is stored as entered (version.py:79); version.py:115 does the same | the form's default (34.0, -79.0) is submitted unchanged and drawn at (34.0, 79.0) | draw the stored longitude unchanged, as `main_app.py` does | medium (not executed) | Version.DefaultMarkerMirrored | Version.MarkerShowsEntered |
