# equip-manager-web: calibration records, in Dafny

equip-manager-web keeps the records of industrial measurement equipment. It stores equipment, measurement points, calibration certificates and about a dozen reference lists (manufacturers, equipment types, polos, units and so on). It reports calibration due dates through a dashboard. The server is a Flask application over SQLAlchemy and SQLite. The client is plain JavaScript that talks to the server's JSON API.

This project models both halves as pure functions.

- **Server.** Every request handler is a function from a database value `Store.Db` and a request payload to a `Store.Reply`. A reply holds the HTTP status, the database after the request, and the id a 201 reports. A database is one table per entity. A table is a sequence of rows in rowid order, and a row is a map from column name to a dynamic SQLite `Values.Value`. `Store.Commit` checks the declared constraints on the state after the write: INTEGER PRIMARY KEY, UNIQUE (NULLs are distinct), the composite certificate UNIQUE, and NOT NULL. A violation answers 500 and keeps the state from before the write. This is the `try/except` with `rollback` every handler wraps around `commit`. A value written to a column first goes through SQLite's type affinity for the column's declared type (section 3 of "Datatypes In SQLite Version 3"): numeric text in an `Integer` column is stored as the integer, and a number in a `String` column as its decimal text. `filter_by` compares with the value converted the same way (`Values.ApplyAffinity`, `Store.StoredAs`).
- **Queries.** `filter_by(...).first()`, `ORDER BY` (SQLite's order of storage classes), flask-sqlalchemy's `paginate`, SQLite `LIKE` as SQLAlchemy's `contains` uses it, and the inner-join `GROUP BY` counts live in `Query` and `Values`.
- **Dates.** Stored dates are `YYYY-MM-DD` text. `Calendar` gives Python's proleptic Gregorian calendar: `toordinal`, `strftime('%Y-%m-%d')`, and `strptime` for that format, following the regular expression Python compiles for it with its digits restricted to ASCII. `Timedelta` gives `date + timedelta(days=n)`, including its `OverflowError`. `Calibration` gives `datetime.now()` as a day plus the microseconds since midnight, the status classifier, the remaining-days computation and the two alert buckets.
- **Client.** The client helpers are functions of their inputs. A `fetch` reply, the current time, a parsed date, the browser's percent-encoding and `localeCompare` are all parameters. `JsValues` gives JavaScript's values, truthiness and `String()`.

The modules follow the repository:

- `Store`, `Values`, `Query`: the SQLite model.
- `Equipment`, `Points`, `Certificates`, `Lookups`: `routes/equipamentos.py`, `routes/pontos_medicao.py`, `routes/certificados.py` and `routes/configuracoes.py`.
- `Dashboard`: `routes/dashboard.py`.
- `Importer`: `routes/importacao.py`.
- `Seed`: `insert_initial_data` in `main.py`.
- `ClientApi`, `ClientUtils`, `ClientDashboard`, `ClientEquipment`: `api.js`, `utils.js`, `dashboard.js` and `equipamentos.js`.
- `Text`, `Seqs`, `Wrappers`: shared helpers.

Where a general description of the system and the code disagree, the model follows the code:

- **Remaining days use the clock time.** `calcular_dias_restantes` subtracts `datetime.now()` from a date at midnight, and so does `formatar_ponto_critico`. Once the day has begun, a point due today has -1 days left and is overdue (`Calibration.DueTodayIsOverdue`). Comparing calendar dates would give 0.
- **Overdue counts use text buckets.** The dashboard and alert endpoints do not count overdue points by their status. They compare the stored text with today's date rendered as text. Their buckets therefore put a point due today among the near-due points, while the status classifier calls it overdue (`Calibration.BucketVersusStatusToday`, `Dashboard.CriticalDueToday`).
- **A missing id answers 500.** `get_or_404` raises inside each handler's broad `except Exception`, so an unknown id answers 500, not 404.
- **The export round trip is partial.** For equipment, what is proved is that the export's headers are recognised by the importer (`Importer.EquipmentExportRecognised`). A point export does not import back at all (the Findings section below).

## Model

| member | source | states |
|---|---|---|
| Calendar.DaysInMonth | equip-manager-web/src/routes/pontos_medicao.py:259 | a month has 28 to 31 days |
| Calendar.OrdinalOrder | equip-manager-web/src/routes/pontos_medicao.py:262 | chronological order of valid dates is exactly the order of their day ordinals, and equal ordinals mean equal dates |
| Calendar.OrdinalRange | equip-manager-web/src/routes/pontos_medicao.py:279 | every valid date has an ordinal in 1..3652059, and only 9999-12-31 has the last one |
| Calendar.FormatIso | equip-manager-web/src/routes/dashboard.py:21-22 | `strftime('%Y-%m-%d')` is ten characters with dashes at positions 4 and 7 |
| Calendar.IsoOrder | equip-manager-web/src/routes/dashboard.py:24-33 | text order of two ISO renderings is chronological order, and equal texts are equal dates, so the text comparisons on stored dates compare dates |
| Calendar.IsoOrderLe | equip-manager-web/src/routes/dashboard.py:29-33 | a rendering is text-before-or-equal another exactly when its ordinal is at most the other's |
| Calendar.ParseIso | equip-manager-web/src/routes/pontos_medicao.py:259 | whatever `strptime` accepts is a valid calendar date |
| Calendar.ParseFormatIso | equip-manager-web/src/routes/pontos_medicao.py:277 | parsing what `strftime('%Y-%m-%d')` printed gives back the same date |
| Calendar.FormatIsoYear | equip-manager-web/src/routes/dashboard.py:104 | the first four characters of a rendering are the digits of its year |
| Timedelta.NextDay | equip-manager-web/src/routes/dashboard.py:21 | the following day exists exactly for every date but 9999-12-31 and is one ordinal later |
| Timedelta.PrevDay | equip-manager-web/src/routes/dashboard.py:21 | the preceding day exists exactly for every date after 0001-01-01 and is one ordinal earlier |
| Timedelta.AddDays | equip-manager-web/src/routes/dashboard.py:138 | `date + timedelta(days=n)` succeeds exactly when the resulting ordinal is within 1..3652059 and then lands n ordinals later; otherwise Python raises `OverflowError` |
| Calibration.DaysUntil | equip-manager-web/src/routes/pontos_medicao.py:277-279 | `(target - now).days` is the ordinal difference, minus one once midnight has passed, and it is negative exactly when the target lies before now |
| Calibration.StoredDate | equip-manager-web/src/routes/pontos_medicao.py:259 | a stored value yields a date only when it is text that `strptime` accepts |
| Calibration.StatusCalibracao | equip-manager-web/src/routes/pontos_medicao.py:253-269 | the status is "sem data" exactly for a falsy value, "data invalida" exactly for an unparsable one, and "vencido" exactly for a date before now; otherwise near due or current |
| Calibration.DiasRestantes | equip-manager-web/src/routes/pontos_medicao.py:271-281 | no day count exactly for a falsy or unparsable value; otherwise the floored day difference to now |
| Calibration.StatusMatchesDias | equip-manager-web/src/routes/pontos_medicao.py:262-267 | status and day count agree for the same clock: overdue iff negative, near due iff 0..30, current iff above 30, no status iff no count |
| Calibration.StatusBoundaries | equip-manager-web/src/routes/pontos_medicao.py:259-267 | in calendar days, at midnight a date is overdue only when before today; at any later time of day the date equal to today is already overdue |
| Calibration.DueTodayIsOverdue | equip-manager-web/src/routes/pontos_medicao.py:259-263 | after midnight a point due today is "vencido" with -1 days left |
| Calibration.AlertWindow | equip-manager-web/src/routes/pontos_medicao.py:215-216 | the alert window exists exactly when today plus `dias` does not overflow, and its first bound is today's ISO text |
| Calibration.BucketsDisjoint | equip-manager-web/src/routes/pontos_medicao.py:219-229 | no stored value is both in the overdue and in the near-due bucket |
| Calibration.BucketsOnIsoDates | equip-manager-web/src/routes/pontos_medicao.py:219-229 | on well-formed stored dates the text buckets are day arithmetic: overdue iff before today, near due iff between today and the limit |
| Calibration.BucketVersusStatusToday | equip-manager-web/src/routes/dashboard.py:148-152 | after midnight a point due today lies in the near-due bucket while its status is overdue |
| Values.Get | equip-manager-web/src/routes/pontos_medicao.py:97 | `data.get(key, default)` is the payload's value when the key is present and the default otherwise |
| Values.SqlLtGeExclusive | equip-manager-web/src/routes/dashboard.py:24-33 | for a non-NULL value exactly one of `< lit` and `>= lit` holds; NULL satisfies neither |
| Values.LikeText | equip-manager-web/src/routes/equipamentos.py:19-26 | LIKE sees text for text and integer columns only |
| Values.LikePrefix | equip-manager-web/src/routes/equipamentos.py:19-26 | a wildcard-free pattern followed by `%` matches exactly the texts starting with it, ignoring ASCII case |
| Values.LikeContains | equip-manager-web/src/routes/equipamentos.py:19-26 | `contains(term)` on text, for a term without `%` or `_`, is an ASCII-case-insensitive substring test |
| Values.ApplyAffinitySpec | equip-manager-web/src/models/database.py:114-131 | storing a value in an INTEGER, REAL or TEXT column never changes whether it is NULL or the number it stands for; an INTEGER column leaves text only when it is no integer literal, REAL and TEXT columns never hold an integer, and a TEXT column keeps text as given |
| Values.IntToStringLiteral | equip-manager-web/src/models/database.py:116 | the decimal text of an integer is an integer literal that spells that integer |
| Values.AffinityIdempotent | equip-manager-web/src/models/database.py:114-131 | converting a stored value again changes nothing |
| Values.IntegerTextStoredAsInt | equip-manager-web/src/models/database.py:116 | numeric text within 64 bits written to an INTEGER column is stored as the integer, the same value the integer itself gives |
| Values.TextColumnStoresDecimal | equip-manager-web/src/models/database.py:114 | an integer written to a TEXT column is stored as its decimal text, the same value that text gives |
| Store.Find | equip-manager-web/src/routes/equipamentos.py:81 | `first()` finds the first matching row in rowid order, and nothing exactly when no row matches |
| Store.StoredAsSpec | equip-manager-web/src/models/database.py:114-178 | each column converts by its declared type: integer-literal text becomes an integer in an `Integer` column, an integer becomes decimal text in a `String` column, text stays text there, and NULL stays NULL |
| Store.NextId | equip-manager-web/src/models/database.py:147 | an autoincremented id is larger than every id in use |
| Store.Merge | equip-manager-web/src/routes/pontos_medicao.py:167-180 | `row.c = data.get(c, row.c)`: a present key overwrites, through the column's conversion, even with null; an absent key keeps the value; other columns are untouched |
| Store.Orphan | equip-manager-web/src/models/database.py:191 | deleting a parent without cascade sets the children's foreign key to NULL and leaves every other row and column as it was |
| Store.Commit | equip-manager-web/src/routes/pontos_medicao.py:113-119 | a write that keeps every constraint is committed with the success status; any violation answers 500 and restores the state from before |
| Store.RemoveKeepsUnique | equip-manager-web/src/models/database.py:150 | deleting a row keeps UNIQUE, NOT NULL and key columns |
| Store.AppendKeepsUnique | equip-manager-web/src/models/database.py:150 | inserting a row whose value is new or NULL keeps a UNIQUE column |
| Store.AppendEntryValid | equip-manager-web/src/models/database.py:12 | a reference list stays valid when a new name is added with the next id |
| Store.ReplaceKeepsUnique | equip-manager-web/src/models/database.py:115 | an update keeps a UNIQUE column when the new value is NULL, the row's own, or unused |
| Store.ReplaceBreaksUnique | equip-manager-web/src/models/database.py:115 | an update to a non-NULL value another row holds breaks UNIQUE |
| Store.OrphanNone | equip-manager-web/src/models/database.py:191 | detaching from a parent nobody refers to changes nothing |
| Query.SortBy | equip-manager-web/src/routes/certificados.py:36 | sorting yields a permutation of the rows |
| Query.SortBySorted | equip-manager-web/src/routes/certificados.py:36 | with a total preorder, the sorted rows are in order |
| Query.SqlKeyLeTotalPreorder | equip-manager-web/src/routes/dashboard.py:145 | SQLite's value order (NULL, then numbers, then text) is a total preorder |
| Query.OrderBy | equip-manager-web/src/routes/dashboard.py:145 | `ORDER BY c` returns the same rows, sorted ascending or descending by that column |
| Query.EffectivePage | equip-manager-web/src/routes/equipamentos.py:10 | a page below 1 is read as 1 |
| Query.EffectivePerPage | equip-manager-web/src/routes/equipamentos.py:11 | a page size below 1 is read as 20 |
| Query.PageCount | equip-manager-web/src/routes/equipamentos.py:35-37 | the page count is the least number of full-size pages that hold every result, and 0 without results |
| Query.Paginate | equip-manager-web/src/routes/equipamentos.py:35-37 | a page holds the LIMIT/OFFSET slice, at most the page size, with the total of results; a page past the end is empty |
| Query.PaginateSlice | equip-manager-web/src/routes/certificados.py:36-41 | a page of an ordered result is ordered and holds only results |
| Query.PaginateCovers | equip-manager-web/src/routes/equipamentos.py:35-37 | every result appears exactly on the page its position selects, and that page is within the page count |
| Query.GroupBy | equip-manager-web/src/routes/dashboard.py:56-61 | the inner-join grouping yields one group for each reference row some row refers to, with that count, and never an empty group; keys are compared as stored, so an id sent as numeric text joins like the number |
| Query.GroupByTotal | equip-manager-web/src/routes/dashboard.py:56-61 | with distinct reference ids the group counts add up to the rows joining some reference row; NULL or dangling keys are not counted |
| Equipment.NewEquipment | equip-manager-web/src/routes/equipamentos.py:89-108 | the inserted row holds the serial and every payload column as its column stores it (numeric text in an integer column becomes the integer, a number in a text column its decimal text), absent ones NULL |
| Equipment.Create | equip-manager-web/src/routes/equipamentos.py:74-117 | a missing serial answers 500; a serial or truthy tag the column already stores, compared after the column's conversion, answers 400; otherwise the converted row is appended through the commit |
| Equipment.CreateSucceeds | equip-manager-web/src/routes/equipamentos.py:74-117 | on a valid database a create succeeds exactly when serial and name are non-null, the serial as stored is new and the tag is null or new as stored |
| Equipment.CreatedSerialRefused | equip-manager-web/src/routes/equipamentos.py:81-82 | after a create succeeds, every payload whose serial the column stores as the same value is refused with 400 |
| Equipment.NumericThenTextSerial | equip-manager-web/src/routes/equipamentos.py:81-82 | a serial posted as a number, such as 5, and then as its decimal text, `'5'`, is refused the second time |
| Equipment.SerialStoredAsText | equip-manager-web/src/models/database.py:114 | the serial column stores a number and its decimal text as the same text |
| Equipment.TextIdStoredAsInt | equip-manager-web/src/routes/equipamentos.py:89-108 | a manufacturer id sent as numeric text is stored as the integer, so the manufacturer filter finds the row |
| Equipment.AppendEquipmentValid | equip-manager-web/src/models/database.py:114-118 | appending keeps the equipment constraints exactly when serial and name are set, the serial is new and the tag is NULL or new |
| Equipment.Update | equip-manager-web/src/routes/equipamentos.py:156-193 | an unknown serial answers 500, a truthy tag used by another row answers 400, otherwise the merge is committed |
| Equipment.UpdateKeepsSerials | equip-manager-web/src/routes/equipamentos.py:156-193 | no update changes any serial number or the number of rows, whatever the payload holds |
| Equipment.UpdateSucceeds | equip-manager-web/src/routes/equipamentos.py:156-193 | on a valid database an update of an existing serial succeeds exactly when the tag check passes and the merged row keeps the constraints |
| Equipment.ValidWithEquipamentos | equip-manager-web/src/models/database.py:112-118 | swapping the equipment table of a valid database keeps it valid exactly when the new table meets the equipment constraints |
| Equipment.ReplaceEquipmentValid | equip-manager-web/src/models/database.py:114-118 | replacing a row with one of the same serial is valid exactly when the name is set and the tag is NULL, its own or unused |
| Equipment.Delete | equip-manager-web/src/routes/equipamentos.py:195-212 | an unknown serial answers 500, points or certificates answer 400, otherwise the row is removed and plates and runs are detached before the commit |
| Equipment.DeleteOutcome | equip-manager-web/src/routes/equipamentos.py:195-212 | without points or certificates the delete succeeds exactly when no orifice plate or straight run names the serial, because detaching one nulls a NOT NULL column |
| Equipment.ListHits | equip-manager-web/src/routes/equipamentos.py:19-32 | the listing keeps exactly the rows matching the search and the id filters, in table order |
| Equipment.List | equip-manager-web/src/routes/equipamentos.py:6-72 | the listing is the requested page of the matching rows |
| Equipment.ListUnfilteredCountsAll | equip-manager-web/src/routes/equipamentos.py:6-72 | without search or filters the total counts every equipment |
| Equipment.SearchIsSubstring | equip-manager-web/src/routes/equipamentos.py:19-26 | for a wildcard-free term the search is a case-insensitive substring test on serial, tag or name |
| Equipment.Estatisticas | equip-manager-web/src/routes/equipamentos.py:214-236 | the total is the number of equipment and the groups are the inner-join counts per manufacturer and per type, on the stored (converted) ids |
| Equipment.EstatisticasBounded | equip-manager-web/src/routes/equipamentos.py:221-224 | on a valid database the per-manufacturer counts add up to the equipment with an existing manufacturer, never more than the total |
| Points.NewPoint | equip-manager-web/src/routes/pontos_medicao.py:96-110 | the inserted point holds every payload column as its column stores it, absent ones NULL, and the next id |
| Points.Create | equip-manager-web/src/routes/pontos_medicao.py:86-119 | a missing tag key answers 500, a tag the column already stores (after conversion) 400, otherwise the point is appended through the commit with a fresh id |
| Points.CreateSucceeds | equip-manager-web/src/routes/pontos_medicao.py:86-119 | on a valid database a create succeeds exactly when tag and name are non-null and the tag as stored is unused |
| Points.AppendPointValid | equip-manager-web/src/models/database.py:147-150 | appending a point with a fresh id keeps the point constraints exactly when tag and name are set and the tag is unused |
| Points.NumericDateStoredAsText | equip-manager-web/src/routes/pontos_medicao.py:96-110 | a next-calibration date sent as the number 0 is stored as the text `'0'`, and the point's status is `data_invalida` |
| Points.TextIdFiltered | equip-manager-web/src/routes/pontos_medicao.py:96-110 | a classification id sent as numeric text is stored as the integer, so the classification filter finds the point |
| Points.Update | equip-manager-web/src/routes/pontos_medicao.py:155-188 | an unknown id answers 500, a truthy tag used by another point 400, otherwise the merge over the point columns is committed |
| Points.UpdateSucceeds | equip-manager-web/src/routes/pontos_medicao.py:155-188 | on a valid database an update of an existing point answers 200 exactly when the tag check passes and the merged row has a name and a tag that is its own or unused |
| Points.ReplacePointValid | equip-manager-web/src/models/database.py:147-150 | replacing a point by one with the same id keeps the point constraints exactly when name and tag are set and the tag is its own or unused |
| Points.MergeSemantics | equip-manager-web/src/routes/pontos_medicao.py:167-180 | the merge keeps the id and every unlisted column; a present key stores its value as the column converts it, a present null clears a column, an absent key keeps it |
| Points.UpdateEmptyPayload | equip-manager-web/src/routes/pontos_medicao.py:155-188 | an update with an empty payload succeeds and changes nothing |
| Points.Delete | equip-manager-web/src/routes/pontos_medicao.py:190-207 | an unknown id answers 500, dependent analyses or schedule events answer 400, otherwise the row is removed |
| Points.DeleteRemovesExactlyOne | equip-manager-web/src/routes/pontos_medicao.py:190-207 | on a valid database an existing point without dependents is deleted and no row keeps its id |
| Points.ListHits | equip-manager-web/src/routes/pontos_medicao.py:19-43 | the listing keeps exactly the rows matching search, polo, classification and the near-due limit, in table order |
| Points.WithStatus | equip-manager-web/src/routes/pontos_medicao.py:51-53 | every listed point carries the status of its stored date |
| Points.List | equip-manager-web/src/routes/pontos_medicao.py:8-84 | the listing is the requested page of the matching points, each with its status; a date overflow answers 500 |
| Points.NearDueFilterIncludesOverdue | equip-manager-web/src/routes/pontos_medicao.py:37-43 | the `vencimento_proximo` filter keeps every well-formed date at most 30 days ahead, overdue ones included |
| Points.ToAlerts | equip-manager-web/src/routes/pontos_medicao.py:231-241 | each alert carries its point and that point's remaining days |
| Points.OverdueRows | equip-manager-web/src/routes/pontos_medicao.py:219-222 | the overdue list holds exactly the points whose date text is before today |
| Points.NearDueRows | equip-manager-web/src/routes/pontos_medicao.py:225-229 | the near-due list holds exactly the points whose date text lies between today and the limit |
| Points.Alertas | equip-manager-web/src/routes/pontos_medicao.py:209-251 | the two alert lists and their totals for the window, or 500 on a date overflow |
| Points.AlertasDisjoint | equip-manager-web/src/routes/pontos_medicao.py:219-229 | no point is in both alert lists, and together they hold at most every point |
| Certificates.NewCertificate | equip-manager-web/src/routes/certificados.py:84-91 | the inserted certificate holds the payload's fields as their columns store them, the given revision and the next id, and no other column |
| Certificates.Create | equip-manager-web/src/routes/certificados.py:68-100 | a missing serial or number answers 500; a stored triple equal to the payload's (converted, an absent revision read as `''`) answers 400; otherwise the row, whose absent revision is NULL, is committed |
| Certificates.CheckedRevision | equip-manager-web/src/routes/certificados.py:78 | the revision the duplicate check compares is `''` when absent and otherwise the payload's revision as the column stores it |
| Certificates.CreateSucceeds | equip-manager-web/src/routes/certificados.py:68-100 | on a valid database a create answers 201 exactly when serial, number and date are given and non-null and no stored triple equals the checked one |
| Certificates.AppendCertValid | equip-manager-web/src/models/database.py:173-181 | appending a certificate with a fresh id keeps the constraints exactly when serial, number and date are set and its triple clashes with no row |
| Certificates.ConflictIsTriple | equip-manager-web/src/models/database.py:181 | two rows conflict on the composite UNIQUE exactly when the first has no NULL among the three columns and the second has the same triple |
| Certificates.AbsentRevisionDuplicates | equip-manager-web/src/routes/certificados.py:75-87 | for any serial, number and date, the same certificate without a revision posted twice to an empty database is accepted twice and the table holds its triple twice |
| Certificates.CreateIntended | equip-manager-web/src/routes/certificados.py:74-91 | with the stored revision checked, a create answers 400 exactly when the triple is stored already |
| Certificates.CreateIntendedKeepsTriplesUnique | equip-manager-web/src/models/database.py:181 | the corrected create keeps every triple unique, NULL revisions included |
| Certificates.Update | equip-manager-web/src/routes/certificados.py:125-145 | an unknown id answers 500; otherwise five fields are merged with no duplicate re-check and the commit decides |
| Certificates.UpdateSucceeds | equip-manager-web/src/routes/certificados.py:125-145 | on a valid database an update of an existing certificate answers 200 exactly when the merged number and date are set and the merged triple clashes with no other row |
| Certificates.ReplaceCertValid | equip-manager-web/src/models/database.py:173-181 | replacing a certificate by one with the same id and serial keeps the constraints exactly when number and date are set and no other row has its triple |
| Certificates.UpdateSkipsDuplicateCheck | equip-manager-web/src/routes/certificados.py:130-137 | an update giving a certificate another row's serial and number with both revisions NULL answers 200 and leaves the triple twice in the table |
| Certificates.UpdateKeepsSerialAndId | equip-manager-web/src/routes/certificados.py:125-145 | no update moves a certificate to another equipment or changes its id |
| Certificates.Delete | equip-manager-web/src/routes/certificados.py:147-160 | an existing certificate is removed with no dependency guard; an unknown id answers 500 |
| Certificates.DeleteAlwaysSucceeds | equip-manager-web/src/routes/certificados.py:147-160 | on a valid database deleting an existing certificate succeeds, removes exactly that row and touches no other table |
| Certificates.ListHits | equip-manager-web/src/routes/certificados.py:14-33 | the listing keeps exactly the certificates matching the search, serial and status filters |
| Certificates.List | equip-manager-web/src/routes/certificados.py:8-66 | the listing is the requested page of the matching certificates ordered by date, newest first |
| Certificates.OfEquipment | equip-manager-web/src/routes/certificados.py:166-167 | exactly the certificates naming the serial, in table order |
| Certificates.PorEquipamento | equip-manager-web/src/routes/certificados.py:162-189 | one equipment's certificates, newest first, with their number as total |
| Lookups.NewEntry | equip-manager-web/src/routes/configuracoes.py:150-160 | the inserted entry holds the name, the installation's optional polo, each as its column stores it, and the next id |
| Lookups.Create | equip-manager-web/src/routes/configuracoes.py:20-36 | a missing name answers 500, a name the list already stores (after conversion) 400, otherwise the entry is committed |
| Lookups.CreateSucceeds | equip-manager-web/src/routes/configuracoes.py:26-27 | on a valid database a create succeeds exactly when a non-null name is given that the list does not store yet |
| Lookups.RenameFabricante | equip-manager-web/src/routes/configuracoes.py:38-56 | the new name is looked up only when it differs, before conversion, from the current one; then the converted name is committed |
| Lookups.RenameSucceeds | equip-manager-web/src/routes/configuracoes.py:46-50 | renaming an existing manufacturer succeeds exactly when the new name is non-null and either unused as stored or equal to the current name both as sent and as stored |
| Lookups.DeleteFabricante | equip-manager-web/src/routes/configuracoes.py:58-74 | a manufacturer some equipment refers to by its stored id answers 400; otherwise it is removed and plates and runs are detached |
| Lookups.TextReferenceBlocksDelete | equip-manager-web/src/routes/configuracoes.py:65-66 | after an equipment is created with the manufacturer id sent as numeric text, deleting that manufacturer answers 400 |
| Lookups.AppendedReferenceRefused | equip-manager-web/src/routes/configuracoes.py:65-66 | once an equipment row naming a manufacturer is appended, deleting that manufacturer answers 400 |
| Lookups.OrphanKeepsOnePerEquipment | equip-manager-web/src/models/database.py:191-193 | detaching plates or runs from a manufacturer keeps their constraints |
| Lookups.DeleteFabricanteOutcome | equip-manager-web/src/routes/configuracoes.py:65-69 | a manufacturer no equipment refers to by its stored id is always deleted, and no plate or run refers to it afterwards |
| Lookups.ListSorted | equip-manager-web/src/routes/configuracoes.py:15 | a list endpoint returns every entry, ordered by name |
| Lookups.Todas | equip-manager-web/src/routes/configuracoes.py:309-323 | `/todas` holds the nine editable lists under their keys, each ordered by name |
| Lookups.TodasCoversEditable | equip-manager-web/src/routes/configuracoes.py:313-323 | `/todas` covers exactly the lists that have create endpoints |
| Seed.AddNames | equip-manager-web/src/main.py:73-75 | each seeded name is appended in order with the next id |
| Seed.Seeded | equip-manager-web/src/main.py:67-153 | every list is extended by its seed names and nothing else changes |
| Seed.InsertInitialData | equip-manager-web/src/main.py:55-160 | nothing happens when a manufacturer exists; otherwise all seed lists are added and committed at once, and a violation restores the database |
| Seed.SeededSkips | equip-manager-web/src/main.py:67-153 | models and installations receive no seed rows |
| Seed.SeedIdempotent | equip-manager-web/src/main.py:63-65 | seeding twice is seeding once |
| Seed.SeedCommits | equip-manager-web/src/main.py:155-160 | without manufacturers the seed commits exactly when none of its names is taken; one clash in any list rolls every list back |
| Seed.AddNamesValid | equip-manager-web/src/main.py:73-75 | appending pairwise different new names keeps a list valid |
| Seed.ClashBreaksUnique | equip-manager-web/src/models/database.py:12 | a seed name already in the list breaks UNIQUE once added |
| Seed.SeedFromEmpty | equip-manager-web/src/main.py:67-153 | on the empty database every list receives exactly its seed names, in order |
| Seed.SeedListsDistinct | equip-manager-web/src/main.py:68-149 | none of the seed lists repeats a name |
| Dashboard.ResumoGeral | equip-manager-web/src/routes/dashboard.py:11-49 | the summary reports the table sizes and the sizes of the two 30-day buckets, with their sum; a date overflow answers 500 |
| Dashboard.ResumoMatchesAlertas | equip-manager-web/src/routes/dashboard.py:24-33 | the summary's counts equal the totals of the default alert lists, and the alerts never exceed the points |
| Dashboard.SortGroups | equip-manager-web/src/routes/dashboard.py:61 | the groups come largest count first, as a permutation |
| Dashboard.EstatisticasEquipamentos | equip-manager-web/src/routes/dashboard.py:51-86 | each grouping holds exactly the non-empty join counts per manufacturer, type and polo, largest first |
| Dashboard.CronogramaCalibracoes | equip-manager-web/src/routes/dashboard.py:88-130 | twelve entries named Jan..Dez, each counting the dates in its month's half-open text interval, with their sum as the yearly total |
| Dashboard.MonthIsCalendarMonth | equip-manager-web/src/routes/dashboard.py:103-115 | a well-formed date is counted in month m exactly when it falls in that calendar month |
| Dashboard.DateInRange | equip-manager-web/src/routes/dashboard.py:111-115 | a stored ISO date lies in a text interval of ISO bounds exactly when the date lies in the date interval |
| Dashboard.CountSplit | equip-manager-web/src/routes/dashboard.py:111-115 | splitting a text interval at an inner bound splits its count |
| Dashboard.Telescope | equip-manager-web/src/routes/dashboard.py:126 | adjacent half-open month intervals sum to the count of their union |
| Dashboard.CronogramaTotal | equip-manager-web/src/routes/dashboard.py:101-126 | for a four-digit year the yearly total counts exactly the dates from 1 January of the year to 1 January of the next |
| Dashboard.SortedAlerts | equip-manager-web/src/routes/dashboard.py:142-152 | a bucket's points, each with its remaining days, in ascending date order |
| Dashboard.PontosCriticos | equip-manager-web/src/routes/dashboard.py:132-185 | the overdue and near-due lists hold exactly the bucket points, each sorted by date with its remaining days, with consistent totals; a date overflow answers 500 |
| Dashboard.Criticals | equip-manager-web/src/routes/dashboard.py:142-181 | the two critical lists hold only bucket points, each ascending by date with its remaining days, and their totals are the bucket sizes |
| Dashboard.TodayInNearDue | equip-manager-web/src/routes/dashboard.py:142-152 | a point due today falls in the near-due list, not the overdue one |
| Dashboard.CriticalDueToday | equip-manager-web/src/routes/dashboard.py:154-172 | after midnight a point due today is listed near due with -1 days left, although its status is overdue |
| Dashboard.SqlLimit | equip-manager-web/src/routes/dashboard.py:196 | a negative `LIMIT` returns everything, otherwise the first n rows |
| Dashboard.PySliceTo | equip-manager-web/src/routes/dashboard.py:223 | `s[:n]` is a prefix, its length as Python's negative-index rule gives |
| Dashboard.FetchRecent | equip-manager-web/src/routes/dashboard.py:194-196 | at most the limit of certificates, all taken from the table, newest first, and none left out is newer than one returned; the limit is reached whenever the table has that many |
| Dashboard.UltimasAtividades | equip-manager-web/src/routes/dashboard.py:187-228 | the activities are certificates, newest first, and the total counts them before the slice |
| Dashboard.IndicadoresPerformance | equip-manager-web/src/routes/dashboard.py:230-266 | points with a date, those on time, a share between 0 and 100 (0 without points, 100 when all are on time), and one "Sem Status" group of certificates |
| Dashboard.IndicatorsAt | equip-manager-web/src/routes/dashboard.py:235-252 | the totals count dated and on-time points, on-time never exceeding dated, and the certificates form one "Sem Status" group when there are any |
| Dashboard.Share | equip-manager-web/src/routes/dashboard.py:245 | the share is 0 for no points, between 0 and 100, and 100 when all are on time |
| Dashboard.Percent | equip-manager-web/src/routes/dashboard.py:245 | `part / whole * 100` lies between 0 and 100 and is 100 for the whole |
| Dashboard.IndicadoresPartition | equip-manager-web/src/routes/dashboard.py:235-243 | every dated point is either on time or overdue, never both |
| Importer.Columns | equip-manager-web/src/routes/importacao.py:41 | each column is its header lower-cased and stripped |
| Importer.IndexOf | equip-manager-web/src/routes/importacao.py:53 | the first column with that name, and none exactly when no column has it |
| Importer.FirstPresent | equip-manager-web/src/routes/importacao.py:51-54 | the first synonym that is a column, none exactly when none is |
| Importer.FirstFilled | equip-manager-web/src/routes/importacao.py:85-94 | the first synonym that is a column whose cell is not NaN, none exactly when none is |
| Importer.GetOrCreate | equip-manager-web/src/routes/importacao.py:88-93 | an existing name is reused, otherwise a new entry with the next id is added; either way the name resolves to the returned id and the list stays valid |
| Importer.GetOrCreateKeepsLookups | equip-manager-web/src/routes/importacao.py:88-93 | finding or creating a reference entry never adds a duplicate name |
| Importer.LookupByName | equip-manager-web/src/routes/importacao.py:84-107 | a row with no filled synonym gets NULL; otherwise the entry is found or created, and only reference lists change |
| Importer.EquipmentLookups | equip-manager-web/src/routes/importacao.py:84-107 | the manufacturer and type are NULL without a filled column, the lists stay free of duplicates, and nothing else changes |
| Importer.EquipmentRow | equip-manager-web/src/routes/importacao.py:110-117 | the inserted equipment holds the serial, tag, name, manufacturer and type it was given |
| Importer.Fail | equip-manager-web/src/routes/importacao.py:56-59 | a rejected row stores nothing and adds one error naming sheet row index + 2 |
| Importer.AddEquipment | equip-manager-web/src/routes/importacao.py:68-119 | an accepted row appends one equipment with its serial, its optional tag, its name (or the serial-derived default) and NULL references where no column is filled, and counts it |
| Importer.EquipmentStep | equip-manager-web/src/routes/importacao.py:47-123 | a blank, "nan" or known serial is an error, otherwise the equipment is added |
| Importer.EquipmentStepFrame | equip-manager-web/src/routes/importacao.py:83-118 | an equipment row changes only the equipment and reference lists and adds no duplicate name |
| Importer.EquipmentStepKeepsSerials | equip-manager-web/src/routes/importacao.py:56-65 | a row keeps serials unique and set and names set, only appends, and appends exactly when it is counted as imported |
| Importer.ImportEquipmentRows | equip-manager-web/src/routes/importacao.py:47-123 | every row is counted once, as imported or as an error, and the errors are numbered by sheet row |
| Importer.ImportEquipmentKeepsSerials | equip-manager-web/src/routes/importacao.py:56-65 | imported serials are new and non-empty, also within one sheet, and other tables are untouched |
| Importer.ImportEquipmentKeepsLookups | equip-manager-web/src/routes/importacao.py:83-107 | reference entries are created only when absent, so no duplicate name arises |
| Importer.AcceptPoint | equip-manager-web/src/routes/importacao.py:183-223 | the polo and classification are found or created before the frequency is converted, so a failing conversion still leaves them behind |
| Importer.LookupColumn | equip-manager-web/src/routes/importacao.py:184-203 | a missing or NaN cell gives NULL; otherwise its text is stripped and found or created; only the reference lists change |
| Importer.PointLookups | equip-manager-web/src/routes/importacao.py:184-203 | the polo and classification lookups keep the lists free of duplicates and change nothing else |
| Importer.PointRow | equip-manager-web/src/routes/importacao.py:211-223 | the inserted point holds the id, tag, name, lookups, equipment reference and dates of its row |
| Importer.AddPoint | equip-manager-web/src/routes/importacao.py:211-227 | an accepted row appends one point with the next id, its tag and name, and counts it |
| Importer.PointStep | equip-manager-web/src/routes/importacao.py:163-227 | a blank, "nan" or known tag is an error, otherwise the point row is processed |
| Importer.PointStepFrame | equip-manager-web/src/routes/importacao.py:163-227 | a point row changes only the point table and the reference lists, and adds no duplicate name |
| Importer.PointStepKeepsPontos | equip-manager-web/src/routes/importacao.py:166-181 | a point row keeps the point table valid |
| Importer.ImportPointRows | equip-manager-web/src/routes/importacao.py:163-227 | every row is counted once and the errors are numbered by sheet row |
| Importer.ImportPointsKeepsValid | equip-manager-web/src/routes/importacao.py:166-181 | the point table stays valid, no reference list gains a duplicate, other tables are untouched |
| Importer.Finish | equip-manager-web/src/routes/importacao.py:229-241 | the commit stores all rows or, on a violation, none (500), reporting at most ten errors |
| Importer.ImportarEquipamentos | equip-manager-web/src/routes/importacao.py:13-137 | no file, an empty name or another extension answers 400, an unreadable sheet 500, and only a 200 changes the database |
| Importer.ImportarPontos | equip-manager-web/src/routes/importacao.py:139-241 | the same upload checks, and only a 200 changes the database |
| Importer.ImportarPontosCommits | equip-manager-web/src/routes/importacao.py:163-230 | on a valid database a readable point sheet always commits |
| Importer.ImportarEquipamentosCommits | equip-manager-web/src/routes/importacao.py:68-72 | on a valid database an equipment sheet commits exactly when the imported tags stay unique, the one column the loop does not check |
| Importer.EquipmentTemplateRecognised | equip-manager-web/src/routes/importacao.py:349-358 | the equipment template's headers supply serial, tag, name, manufacturer and type |
| Importer.EquipmentExportRecognised | equip-manager-web/src/routes/importacao.py:263-273 | the equipment export's headers, lower-cased, are the first synonyms of every column the importer reads |
| Importer.PointTemplateRecognised | equip-manager-web/src/routes/importacao.py:381-390 | every key the point importer reads is a column of its template |
| Importer.PointExportLacksTag | equip-manager-web/src/routes/importacao.py:313-322 | no header of the point export normalises to the tag key |
| Importer.MissingTagColumn | equip-manager-web/src/routes/importacao.py:166-172 | a sheet without the tag column imports nothing and reports every row |
| Importer.PointExportNotReimportable | equip-manager-web/src/routes/importacao.py:313-322 | a point export read back stores nothing and reports every row as lacking its tag |
| Importer.TaggedRowImported | equip-manager-web/src/routes/importacao.py:166-223 | a row with a fresh tag under the tag key is imported |
| Importer.PointExportKeysReimportable | equip-manager-web/src/routes/importacao.py:313-322 | with the importer's keys as headers a tagged export row imports, where the export as written imports none |
| ClientApi.ErrorText | equip-manager-web/src/static/js/api.js:22 | the error message is never empty |
| ClientApi.Request | equip-manager-web/src/static/js/api.js:6-33 | a call resolves exactly for an ok JSON reply, with its data and no toast; every rejection shows its message or the fallback; the loader ends hidden |
| ClientApi.RequestShowsServerError | equip-manager-web/src/static/js/api.js:21-23 | a failed reply shows the server's `error` text, or the status code without one |
| ClientApi.CronogramaEndpoint | equip-manager-web/src/static/js/api.js:92-95 | the year is appended exactly when it is truthy |
| ClientApi.QueryString | equip-manager-web/src/static/js/api.js:109 | the query string is empty exactly without parameters |
| ClientApi.ListEndpoint | equip-manager-web/src/static/js/api.js:108-112 | `?` and the query are appended exactly for a non-empty parameter list |
| ClientApi.GetConfiguracoes | equip-manager-web/src/static/js/api.js:316-340 | a fresh cache is returned without fetching; otherwise a successful fetch is stored with the call's time, and a failed one falls back to the old cache or the default lists |
| ClientApi.CacheHitIgnoresNetwork | equip-manager-web/src/static/js/api.js:319-321 | a cache hit does not depend on the network |
| ClientApi.FetchedStaysFresh | equip-manager-web/src/static/js/api.js:314-326 | for five minutes after a successful fetch, unforced calls return those lists without fetching |
| ClientApi.Invalidate | equip-manager-web/src/static/js/api.js:343-346 | after invalidation the cache is never fresh |
| ClientApi.InvalidateForcesFetch | equip-manager-web/src/static/js/api.js:329-338 | after invalidation the next call fetches, and a failure returns the default lists |
| ClientApi.DefaultMissesNaturezas | equip-manager-web/src/static/js/api.js:329-338 | the fallback holds eight of the nine lists the server sends and lacks `naturezas_teste_analise` |
| ClientUtils.CeilDiv | equip-manager-web/src/static/js/utils.js:127 | `Math.ceil(a / d)` is the least q with a <= q * d |
| ClientUtils.GetDaysUntil | equip-manager-web/src/static/js/utils.js:117-132 | null exactly for a falsy input, NaN exactly for an unparsable date, otherwise the day difference of the two midnights |
| ClientUtils.GetStatusCalibacao | equip-manager-web/src/static/js/utils.js:135-153 | "sem data" exactly for a falsy input; an unparsable date is "vigente"; a parsed date gets the label of its day count |
| ClientUtils.InvalidDateShownVigente | equip-manager-web/src/static/js/utils.js:140-151 | a date the browser cannot parse is labelled "vigente" |
| ClientUtils.StatusCalibacaoIntended | equip-manager-web/src/static/js/utils.js:142-144 | the corrected classifier labels an unparsable date "data invalida" and agrees with the original on parsed dates |
| ClientUtils.TruncateText | equip-manager-web/src/static/js/utils.js:188-192 | empty for a falsy text, the text itself when short enough, otherwise its first maxLength characters and `...` |
| ClientUtils.TruncateIdempotent | equip-manager-web/src/static/js/utils.js:188-192 | truncating twice with the same limit is truncating once |
| ClientUtils.CreatePagination | equip-manager-web/src/static/js/utils.js:378-443 | nothing for at most one page; otherwise the bar starts with the previous and ends with the next button, disabled on the first and last page |
| ClientUtils.PageRun | equip-manager-web/src/static/js/utils.js:413-419 | the window is one button per page from start to end, active exactly on the current page |
| ClientUtils.ItemAt | equip-manager-web/src/static/js/utils.js:378-443 | the bar is the previous button, the leading items, the window, the trailing items and the next button, in that order |
| ClientUtils.PageAt | equip-manager-web/src/static/js/utils.js:396-433 | a page button is page 1 right after the previous button, a window page, or the last page right before the next button |
| ClientUtils.DotsAt | equip-manager-web/src/static/js/utils.js:405-427 | dots appear only third, when pages 2.. are skipped, or third from the end, when pages before the last are skipped |
| ClientUtils.PaginationIncreasing | equip-manager-web/src/static/js/utils.js:396-433 | the page buttons strictly increase, so no page is offered twice |
| ClientUtils.PaginationActive | equip-manager-web/src/static/js/utils.js:413-419 | a button is active exactly when it is the current page, and the current page is always shown |
| ClientUtils.PaginationPages | equip-manager-web/src/static/js/utils.js:396-433 | the buttons are the window of two pages around the current one, plus the first and last page when the window misses them |
| ClientUtils.PaginationEnds | equip-manager-web/src/static/js/utils.js:399-433 | within the page range the bar starts at page 1 and ends at the last page |
| ClientUtils.PaginationAdjacent | equip-manager-web/src/static/js/utils.js:413-419 | neighbouring buttons are consecutive pages |
| ClientUtils.PaginationDots | equip-manager-web/src/static/js/utils.js:405-427 | dots stand exactly between two buttons whose pages are at least two apart |
| ClientUtils.ReplaceRuns | equip-manager-web/src/static/js/utils.js:204 | every run of matching characters becomes one replacement character, and no two replacements are adjacent |
| ClientUtils.LowerTrim | equip-manager-web/src/static/js/utils.js:201-203 | the lower-cased text has no ASCII capital |
| ClientUtils.KeepWordChars | equip-manager-web/src/static/js/utils.js:204-205 | only word characters and dashes remain |
| ClientUtils.CollapseDashes | equip-manager-web/src/static/js/utils.js:206-208 | collapsing and stripping dashes leaves a slug |
| ClientUtils.Slugify | equip-manager-web/src/static/js/utils.js:199-209 | the result is a slug: lower-case word characters and single dashes, no dash at either end |
| ClientUtils.SlugFixpoint | equip-manager-web/src/static/js/utils.js:199-209 | a slug is left unchanged |
| ClientUtils.SlugifyIdempotent | equip-manager-web/src/static/js/utils.js:199-209 | slugifying twice is slugifying once, and the unchanged strings are exactly the slugs |
| ClientUtils.FilterData | equip-manager-web/src/static/js/utils.js:458-469 | an empty term keeps everything; otherwise exactly the items with a truthy searched field containing the lower-cased term, as many as match, in their original order |
| ClientUtils.FilterDataNarrows | equip-manager-web/src/static/js/utils.js:458-469 | typing more of a term only narrows the result, and filtering twice by a term is filtering once |
| ClientUtils.SortKey | equip-manager-web/src/static/js/utils.js:358-367 | null, undefined and empty values sort as the empty key |
| ClientUtils.SortTableData | equip-manager-web/src/static/js/utils.js:356-375 | the sorted copy is a permutation of the data |
| ClientUtils.RowLePreorder | equip-manager-web/src/static/js/utils.js:369-373 | the row comparator in either direction is a total preorder when the locale comparison is |
| ClientUtils.SortTableSorted | equip-manager-web/src/static/js/utils.js:356-375 | the copy is ordered by the lower-cased keys, ascending for "asc" and descending otherwise |
| ClientDashboard.GetCalibrationStatus | equip-manager-web/src/static/js/dashboard.js:266-278 | no count gives "sem data"; a count is overdue iff negative, near due iff 0..30, current iff above 30 |
| ClientDashboard.CalibrationStatusAgrees | equip-manager-web/src/static/js/dashboard.js:266-278 | the dashboard's day-count classifier and the date classifier agree on parsed dates |
| ClientDashboard.FormatDaysRemaining | equip-manager-web/src/static/js/dashboard.js:280-294 | "-" exactly without a count, "Hoje" exactly for 0, "1 dia" exactly for 1 |
| ClientDashboard.FormatDaysRoundTrip | equip-manager-web/src/static/js/dashboard.js:280-294 | reading the text back gives the count, so no two counts share a text |
| ClientDashboard.CriticalRows | equip-manager-web/src/static/js/dashboard.js:217-226 | the table has ten rows, or all points when fewer, taken from the front of the sorted points |
| ClientDashboard.CriticalRowsMostCritical | equip-manager-web/src/static/js/dashboard.js:222-226 | the rows ascend by remaining days, come from the given points, and every point left out has at least as many days as every row shown |
| ClientDashboard.GenerateColors | equip-manager-web/src/static/js/dashboard.js:296-308 | count colours (none for a negative count), cycling through the eight base colours |
| ClientDashboard.ColorsDistinctUpToEight | equip-manager-web/src/static/js/dashboard.js:296-308 | up to eight slices get distinct colours, beyond that they repeat every eight |
| ClientDashboard.FabricantesChart | equip-manager-web/src/static/js/dashboard.js:95-99 | the chart shows the first eight groups, labels and counts in parallel, with distinct colours |
| ClientEquipment.FiltersFromUrl | equip-manager-web/src/static/js/equipamentos.js:141-148 | each filter is the URL parameter or empty, and unrelated parameters do not matter |
| ClientEquipment.SetParam | equip-manager-web/src/static/js/utils.js:501-507 | a truthy value sets the parameter to its text, a falsy one deletes it, other parameters are kept |
| ClientEquipment.UpdateUrlParamsKeeps | equip-manager-web/src/static/js/utils.js:499-509 | a parameter not named in the update is left as it was |
| ClientEquipment.UpdateUrlParamsAppend | equip-manager-web/src/static/js/utils.js:501-507 | updating with two lists in turn is updating with their concatenation |
| ClientEquipment.UpdateUrlSteps | equip-manager-web/src/static/js/equipamentos.js:201-209 | `updateURL()` is four single-parameter steps, search, manufacturer, type and page, each set when truthy |
| ClientEquipment.IfTruthy | equip-manager-web/src/static/js/equipamentos.js:203-206 | a parameter is included exactly when its value is truthy |
| ClientEquipment.UpdateUrlWrites | equip-manager-web/src/static/js/equipamentos.js:201-209 | a non-empty filter is written, an empty one keeps the old URL value; a page above 1 is written, page 1 keeps the old one |
| ClientEquipment.ClearedFilterComesBack | equip-manager-web/src/static/js/equipamentos.js:201-209 | clearing a search leaves it in the URL, so reading the filters back restores the cleared search |
| ClientEquipment.UpdateUrlIntended | equip-manager-web/src/static/js/equipamentos.js:201-209 | the corrected update passes every key, so reading the filters back gives the filters, and each key is present exactly when set |
| ClientEquipment.UpdateUrlAgrees | equip-manager-web/src/static/js/equipamentos.js:201-209 | with every filter set and a page above 1 both versions write the same URL values |
| ClientEquipment.LoadParams | equip-manager-web/src/static/js/equipamentos.js:165-178 | only truthy parameters remain: page when non-zero, the page size, and each filter exactly when non-empty |
| ClientEquipment.LoadQuery | equip-manager-web/src/static/js/equipamentos.js:165-180 | the request carries one query parameter per remaining parameter |
| ClientEquipment.ListingHasQuery | equip-manager-web/src/static/js/equipamentos.js:165-180 | the listing request always carries a query, since the page size is always sent |
| ClientEquipment.ApplyFilters | equip-manager-web/src/static/js/equipamentos.js:193-199 | applying filters resets to page 1 and keeps the loaded data until the reply |
| ClientEquipment.LoadData | equip-manager-web/src/static/js/equipamentos.js:180-190 | a reply sets data, pages and page with their fallbacks; a failure empties the data, sets one page and keeps the current page |
| ClientEquipment.Normalise | equip-manager-web/src/static/js/equipamentos.js:433-440 | every empty field becomes null, every other field keeps its text, and no field is added or dropped |
| ClientEquipment.ToPayload | equip-manager-web/src/static/js/equipamentos.js:442-446 | `JSON.stringify` keeps every key whose value is not `undefined`, maps `null` to NULL and only `null`, sends booleans as 1 and 0, and keeps truthiness |
| ClientEquipment.Submit | equip-manager-web/src/static/js/equipamentos.js:408-448 | nothing is sent exactly when the form is invalid; otherwise the normalised body goes by POST for "create" and by PUT to the serial otherwise |
| ClientEquipment.BlankedFieldCleared | equip-manager-web/src/static/js/equipamentos.js:436-446 | a field blanked in the edit form is stored as NULL by a successful server update |
| ClientEquipment.OpenModal | equip-manager-web/src/static/js/equipamentos.js:355-399 | an edit whose load fails leaves the modal as it was; otherwise the modal opens, read-only exactly for a loaded edit |
| ClientEquipment.ModalDecidesCall | equip-manager-web/src/static/js/equipamentos.js:394-447 | an edit opened from a loaded record submits a PUT to that serial with a read-only serial field; a create submits a POST |

## Left out

- The Flask and SQLAlchemy wiring is left out: blueprints, request parsing and JSON serialisation. Every handler takes its parsed arguments and answers a status and a database. Exception texts are not modelled; only the status is.
- The GET-one handlers (`obter_*`) are left out. They only look up one row and serialise it; the point handler's status is `Calibration.StatusCalibracao`.
- The export and template endpoints are left out as file producers (pandas, openpyxl, `send_file`). Their header rows are constants, and the importer is checked against them.
- SQLite does not enforce foreign keys by default and ignores `String(n)` lengths, so neither is modelled. A reference to a missing row is stored as given.
- Floating-point columns are left out, and so is the rounding of `percentual_em_dia`. `Dashboard.IndicadoresPerformance` states the share as an exact real before `round(..., 2)`.
- pandas is modelled only as far as the importer sees it: a cell is NaN or a value with its `str()` text and its `int()` conversion. Dates in cells are kept as their text.
- JavaScript `Date` parsing, time zones and daylight-saving shifts are left out. A parsed date is given as a day number and today as another, so `ClientUtils.GetDaysUntil` works in whole days.
- JavaScript numbers are modelled as integers. Fractions are never needed by the modelled helpers.
- `localeCompare` is left out as a comparison given as a parameter. `URLSearchParams` percent-encoding is left out as an encoding function given as a parameter.
- Lower-casing is modelled for ASCII and Latin-1 letters only. Python's and JavaScript's full Unicode case mappings are left out.
- The DOM, toasts, Chart.js, the loading overlay, `localStorage`, `debounce`, animations, `formatNumber` and `formatCurrency` are presentation and are left out. So is `main.js`.
- `getFormData` is modelled as a map from field name to text, and `validateForm` as the two required-field rules the equipment form passes it. Multi-valued fields and the other rule kinds are left out.
- The remaining helpers of `utils.js` are left out: date display (`formatDate`, `formatDateTime`, `isValidDate`, `getDateDifference`) depends on `Date` and locale formatting, and `capitalizeFirst`, the element and class helpers, `setFormData`, `clearForm`, the file helpers and `handleError` serve the page, not the records.
- The `catch` in `getDaysUntil` is left out: `new Date` does not throw, so that branch cannot be taken.
- ClientUtils.SortTableData: stability of `Array.prototype.sort` is not stated. The contract gives the permutation and, with `ClientUtils.SortTableSorted`, the order.
- ClientEquipment.LoadQuery: states only the number of parameters. The names and values are those of `ClientEquipment.LoadParams`, turned into text by `String()`.
- Query.OrderBy: SQLite does not order ties, and the model keeps them in table order. Any tie order the engine picks is not covered.
- Calendar.ParseIso: states only that an accepted text is a valid date. Acceptance follows the format's regular expression in the body, and `Calendar.ParseFormatIso` covers every text the server writes.
- Calendar.ParseIso: Python's `\d` in that regular expression also matches other Unicode decimal digits (Arabic-Indic, fullwidth and so on), which `int()` then reads. The model accepts ASCII digits only, so such texts are unparsable here while Python would parse them.
- Points.Alertas: takes one clock reading for the whole request. `alertas_calibracao` reads `datetime.now()` once for the window and again for each point's remaining days, so a request running across midnight can mix two days; that race is not modelled.
- ClientUtils.TruncateText: counts characters, while JavaScript's `length` and `substring` count UTF-16 code units. Texts outside the Basic Multilingual Plane, such as emoji, are cut at a different place, and possibly inside a surrogate pair.
- Values.ApplyAffinitySpec: covers integer-literal text, integers and integral reals. A real written to a TEXT column keeps the real rather than its text rendering. Real-literal text such as `'2.5'` or `'1e3'` in a numeric column stays text. Integer literals beyond 64 bits become an exact real rather than the nearest double. JSON integers beyond 64 bits, which SQLAlchemy cannot bind, are not rejected.
- Seed.SeedListsDistinct: the nine per-list facts behind it (`Seed.FabricantesDistinct` and the rest) are proved by evaluation, not by argument.
- The client's fallback configuration lacks `naturezas_teste_analise` (`ClientApi.DefaultMissesNaturezas`). The equipment page never reads that list, so this is recorded, not claimed as a defect.

## Findings

| source | as written | input that shows it | evidently intended | confidence | as-written member | corrected member |
|---|---|---|---|---|---|---|
| equip-manager-web/src/routes/certificados.py:75-87 | the duplicate check compares an absent revision as `''` but the row stores NULL, so the check never finds the earlier copy | the same certificate without `revisao_certificado` posted twice to an empty database: both answer 201 and the triple is stored twice | the revision checked is the revision stored, so the second post answers 400 | not executed | Certificates.AbsentRevisionDuplicates | Certificates.CreateIntended |
| equip-manager-web/src/static/js/equipamentos.js:201-209 | `updateURL` passes only the set filters, and `updateURLParams` deletes only keys it is given, so a cleared filter stays in the URL | URL `?search=bomba`, search cleared, page 1: the URL keeps `search=bomba` and the next load restores that search | every filter key is passed, so a cleared filter or page 1 removes the parameter | not executed | ClientEquipment.ClearedFilterComesBack | ClientEquipment.UpdateUrlIntended |
| equip-manager-web/src/static/js/utils.js:140-151 | `getDaysUntil` gives NaN, not null, for an unparsable date, so the "Data Inválida" branch is unreachable and NaN falls through to "Vigente" | `getStatusCalibacao('31/12/2024')` is labelled "Vigente" | an unparsable date is labelled "Data Inválida" | not executed | ClientUtils.InvalidDateShownVigente | ClientUtils.StatusCalibacaoIntended |
| equip-manager-web/src/routes/importacao.py:313-322 | the point export's headers are display names; none normalises to `tag_ponto_medicao`, the key the importer reads | any point export uploaded to the point import: every row is rejected as lacking its tag and nothing is stored | the export uses the importer's keys, as the template does, so its rows import back | not executed | Importer.PointExportNotReimportable | Importer.PointExportKeysReimportable |
