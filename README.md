# BrewPiControl core, modelled in Dafny

BrewPiControl is a brewery control panel. A React dashboard keeps the plant state in one
reducer-based store. A FastAPI backend buffers fermentation telemetry that arrives over MQTT and
keeps an inventory ledger, with CSV export and bulk import. A small simulator publishes the
telemetry. This project models the logic at the centre of those parts and proves what each
part promises:

- **Brewery store** (`BreweryContext`, `BreweryTypes`). The closed action union and the pure
  reducer `breweryReducer`. The toasts it shows are a separate function that never affects the
  state. SIMULATE_DATA adds drift from random draws, which are parameters. The PID tick is a
  loop that dispatches one update per enabled controller.
- **Process timer** (`ProcessTimerWidget`). Elapsed, remaining and progress arithmetic, with
  date-fns truncation and the JavaScript `%` written out. The current-step lookup and the
  start/pause toggle are modelled too.
- **Inventory and provider views** (`InventoryView`, `ProvidersView`). The supplier list and the
  three-stage filter chain. `applyFilters` reassigns a local list, so it is a method.
- **Forms** (`InventoryForm`, `ProviderForm`). The submit guards and the payload normalisation.
  The e-mail regular expression is stated as a grammar and checked by a scanner proved
  equivalent to it.
- **Fermentation service** (`FermentationService`). The topic grammar, the per-tank buffer as an
  insertion-ordered sequence of entries, the flush loop as a method over a snapshot (both as
  written, where the session's autoflush makes a pass raise on an unknown tank, and as
  intended), profile assignment, and the history query with its default limit.
- **Simulator** (`Simulator`, `RandomGenerators`). The fermenter object, whose `step` updates its
  fields in place by bounded random walks. Its MQTT topics round-trip through the backend's
  topic grammar.
- **Inventory ledger** (`InventoryService`). Create, update, delete and consume, each as a
  function from tables to tables or to an error, and as methods of a service object that
  broadcast to listener queues. The invariant "quantity equals the sum of the lot's movements"
  is proved for each operation.
- **Import and export** (`InventoryImporter`, `InventoryRouter`). The column sets, the
  missing-columns message, extension dispatch, the column selection and coercion of
  `parse_upload`, the CSV export rows, and the import tally loop with its mapping of errors to
  HTTP statuses.
- **Validator** (`Validators`). The safe temperature range.

Clocks, random draws, `parseFloat`/`float()`, the pandas readers, `pd.to_numeric`, pydantic
validation of a row, and `str()` of an exception are all parameters of the model. They are
never fixed.

`Common`, `Text` and `Seqs` hold the shared helpers: `Option` and `Result`, ASCII character
classes, lower-casing and stripping, and filtering and subsequences.

Where the code and its documentation differ, the model follows the code:

- `TOGGLE_EQUIPMENT` sends `'auto'` and `'error'` to `'on'`.
- The PID tick uses the fixed factor 2 and ignores the gains.
- The inventory text filter trims the search only to decide whether to filter. It then matches
  the untrimmed text.
- The topic pattern of the fermentation service is applied with `fullmatch`.
- The database migration does not create `inventory_transactions`. The model follows the ORM
  in backend/app/inventory/models.py, whose foreign key cascades deletes to the lot's movements.

## Model

| member | source | states |
|---|---|---|
| BreweryContext.UpdateDeviceReplaces | frontend/webapp/src/contexts/BreweryContext.tsx:311-317 | UPDATE_DEVICE replaces every device with the payload's id by the payload and keeps the others; the list length and all other state fields are unchanged; with no match the state is unchanged |
| BreweryContext.UpdateVesselReplaces | frontend/webapp/src/contexts/BreweryContext.tsx:319-325 | the same for UPDATE_VESSEL on vessels |
| BreweryContext.UpdateProcessReplaces | frontend/webapp/src/contexts/BreweryContext.tsx:327-333 | the same for UPDATE_PROCESS on processes |
| BreweryContext.UpdatePidControllerReplaces | frontend/webapp/src/contexts/BreweryContext.tsx:335-341 | the same for UPDATE_PID_CONTROLLER on controllers |
| BreweryContext.ToggledStatusCases | frontend/webapp/src/contexts/BreweryContext.tsx:353 | `'on'` becomes `'off'` and every other status becomes `'on'`; toggling twice restores a status exactly when it was `'on'` or `'off'` |
| BreweryContext.ToggleEquipmentEffect | frontend/webapp/src/contexts/BreweryContext.tsx:343-364 | only equipment with the given id inside a device with the given id changes, and only its status; lengths and everything else are kept |
| BreweryContext.ToggleEquipmentTwice | frontend/webapp/src/contexts/BreweryContext.tsx:343-364 | toggling the same equipment twice gives back the state if and only if every targeted equipment was `'on'` or `'off'` |
| BreweryContext.SetPidSetpointEffect | frontend/webapp/src/contexts/BreweryContext.tsx:366-378 | SET_PID_SETPOINT sets `setpoint` on matching controllers only; output, enabled and the gains are untouched |
| BreweryContext.TogglePidEffect | frontend/webapp/src/contexts/BreweryContext.tsx:380-392 | TOGGLE_PID negates `enabled` on matching controllers and changes nothing else |
| BreweryContext.TogglePidTwice | frontend/webapp/src/contexts/BreweryContext.tsx:380-392 | TOGGLE_PID applied twice restores the whole state, outputs included |
| BreweryContext.ProcessActionsEffect | frontend/webapp/src/contexts/BreweryContext.tsx:394-437 | START sets `'running'` and both start times to now; PAUSE sets `'paused'`; STOP sets `'idle'` and `endTime` to now and keeps `startTime`; only matching processes change |
| BreweryContext.StartThenStop | frontend/webapp/src/contexts/BreweryContext.tsx:394-437 | after START then STOP a matching process is idle, keeps the start times of the START and has the STOP's end time |
| BreweryContext.AddAlarmPrepends | frontend/webapp/src/contexts/BreweryContext.tsx:439-444 | ADD_ALARM yields `[payload] + alarms` and nothing else changes |
| BreweryContext.AcknowledgeAlarmEffect | frontend/webapp/src/contexts/BreweryContext.tsx:446-452 | ACKNOWLEDGE_ALARM sets `acknowledged` on matching alarms only, and applying it again changes nothing |
| BreweryContext.SetMqttStatusEffect | frontend/webapp/src/contexts/BreweryContext.tsx:454-463 | SET_MQTT_STATUS overwrites the flag; a toast is shown exactly when the flag changes |
| BreweryContext.DeltaRanges | frontend/webapp/src/contexts/BreweryContext.tsx:472-480 | a draw in [0, 1) gives a sensor jitter in [-0.25, 0.25) and a vessel jitter in [-0.15, 0.15) |
| BreweryContext.SimulateDataEffect | frontend/webapp/src/contexts/BreweryContext.tsx:465-483 | every sensor value and vessel temperature is at least 0 and equals old value plus jitter when that is non-negative (else 0); sensors get the time; ids, lengths, targets and controllers are unchanged |
| BreweryContext.SimulateDataStaysClose | frontend/webapp/src/contexts/BreweryContext.tsx:472 | from a non-negative reading, one SIMULATE_DATA moves a sensor by less than 0.25 |
| BreweryContext.CurrentValueNotRefreshed | frontend/webapp/src/contexts/BreweryContext.tsx:309-488 | no action except UPDATE_PID_CONTROLLER changes a controller's `currentValue` |
| BreweryContext.TickOutput | frontend/webapp/src/contexts/BreweryContext.tsx:507-508 | the new output of an enabled controller always lies in [0, 100] |
| BreweryContext.TickRaisesOnPositiveError | frontend/webapp/src/contexts/BreweryContext.tsx:507-508 | with a positive error and an output in [0, 100] the output does not decrease, and rises unless it is already 100 |
| BreweryContext.LastEnabledWithId | frontend/webapp/src/contexts/BreweryContext.tsx:505-513 | the last enabled controller with an id among the first n, or none exactly when there is no such controller |
| BreweryContext.PidTick | frontend/webapp/src/contexts/BreweryContext.tsx:503-519 | the loop over the controllers changes only `pidControllers`, keeps its length, leaves each position as the tick of the last enabled controller with its id; with distinct ids enabled ones are ticked and disabled ones unchanged |
| BreweryContext.TickedAtUnique | frontend/webapp/src/contexts/BreweryContext.tsx:505-513 | with distinct ids a controller is ticked exactly when it is enabled |
| BreweryContext.PidTickBounds | frontend/webapp/src/contexts/BreweryContext.tsx:505-513 | after a tick with distinct ids an enabled controller's output is in [0, 100] and a disabled one keeps its output |
| ProcessTimerWidget.ElapsedTimeSplits | frontend/webapp/src/components/brewing/ProcessTimerWidget.tsx:38-44 | 'No iniciado' exactly without a start time; for elapsed e >= 0, `h*60 + m == e` with m in [0, 59], hours shown only when h > 0 |
| ProcessTimerWidget.ElapsedTimeNegative | frontend/webapp/src/components/brewing/ProcessTimerWidget.tsx:40-43 | a negative elapsed time shows only minutes, in [-59, 0] |
| ProcessTimerWidget.DifferenceInMinutesTruncates | frontend/webapp/src/components/brewing/ProcessTimerWidget.tsx:40 | for all instants the minute difference truncates toward zero: d whole minutes fit in a non-negative difference and d + 1 do not; for a negative one -d fit in its magnitude and 1 - d do not |
| ProcessTimerWidget.FindRecipe | frontend/webapp/src/components/brewing/ProcessTimerWidget.tsx:34 | the first recipe with the process's recipe id, or none exactly when no recipe has it |
| ProcessTimerWidget.CurrentStepIndexing | frontend/webapp/src/components/brewing/ProcessTimerWidget.tsx:34-35 | a current step exists exactly when the recipe is found and the 1-based index is in range, and it is `steps[currentStep - 1]` |
| ProcessTimerWidget.StepRemainingBounds | frontend/webapp/src/components/brewing/ProcessTimerWidget.tsx:51-55 | remaining time is never negative, is 0 without step or step start, is at most the duration when elapsed >= 0, and is `duration - elapsed` when that is non-negative |
| ProcessTimerWidget.StepProgressBounds | frontend/webapp/src/components/brewing/ProcessTimerWidget.tsx:57-58 | progress is at most 100, is 0 without a step, is non-negative for non-negative elapsed time, and is 100 once the duration has passed |
| ProcessTimerWidget.EndingSoonExactly | frontend/webapp/src/components/brewing/ProcessTimerWidget.tsx:227 | the warning shows exactly when there is a started step with more than 0 and at most 5 minutes left |
| ProcessTimerWidget.ToggleProcessEffect | frontend/webapp/src/components/brewing/ProcessTimerWidget.tsx:65-71 | a running process is paused; any other is set running with both start times stamped |
| InventoryView.SupplierColumn | frontend/webapp/src/components/views/Inventory.tsx:108 | the supplier of each item, in order |
| InventoryView.SuppliersFromFresh | frontend/webapp/src/components/views/Inventory.tsx:108 | every emitted supplier is non-empty and new, and none is emitted twice |
| InventoryView.SuppliersFromMembers | frontend/webapp/src/components/views/Inventory.tsx:108 | a name is emitted exactly when it is non-empty, not yet seen and the supplier of some item |
| InventoryView.FirstWithSupplier | frontend/webapp/src/components/views/Inventory.tsx:108 | a position within the list whose item carries the supplier, or the list's length |
| InventoryView.SuppliersDistinct | frontend/webapp/src/components/views/Inventory.tsx:108 | the supplier list has no duplicates and no empty entries, and holds exactly the truthy suppliers of the items |
| InventoryView.FirstWithSupplierIsFirst | frontend/webapp/src/components/views/Inventory.tsx:108 | no earlier item carries that supplier, and a position inside the list is found exactly when some item carries it |
| InventoryView.SuppliersFirstOccurrenceOrder | frontend/webapp/src/components/views/Inventory.tsx:108 | the supplier list is in first-occurrence order |
| InventoryView.SuppliersFound | frontend/webapp/src/components/views/Inventory.tsx:108 | every entry of the supplier list is first met at an item of the list |
| InventoryView.BlankSearchKeepsAll | frontend/webapp/src/components/views/Inventory.tsx:111-116 | a blank search keeps every item |
| InventoryView.SearchMembership | frontend/webapp/src/components/views/Inventory.tsx:111-115 | a non-blank search keeps an item exactly when its lower-cased name or lot number contains the lower-cased, untrimmed search |
| InventoryView.AllIsIdentity | frontend/webapp/src/components/views/Inventory.tsx:119-121 | `'all'` is the identity for both selectors; otherwise they keep exactly the items with an equal category or supplier |
| InventoryView.FilteredIsSubsequence | frontend/webapp/src/components/views/Inventory.tsx:111-121 | the final list is an order-preserving subsequence of the items holding exactly those that pass all three filters |
| ProvidersView.ApplyFilters | frontend/webapp/src/views/Providers.tsx:32-46 | the list handed to `setFilteredItems` is an order-preserving subsequence of the data holding exactly the providers that pass every active filter |
| ProvidersView.NoFiltersIsIdentity | frontend/webapp/src/views/Providers.tsx:33-43 | with `null` and `''` the data is returned as is |
| ProvidersView.FilteredMembership | frontend/webapp/src/views/Providers.tsx:36-43 | a provider is kept exactly when it passes every active filter |
| ProvidersView.FilteredIsSubsequence | frontend/webapp/src/views/Providers.tsx:33-45 | the result keeps the input order |
| ProvidersView.AbsentFlagExcluded | frontend/webapp/src/views/Providers.tsx:37 | a provider without `is_national` is dropped whenever the national filter is true or false |
| ProvidersView.FilteredIdempotent | frontend/webapp/src/views/Providers.tsx:32-46 | filtering the result again changes nothing |
| InventoryForm.HandleSubmit | frontend/webapp/src/components/inventory/InventoryForm.tsx:48-74 | `createItem` is called at most once, exactly when lot number and name are not blank and the parsed quantity is neither `NaN` nor below zero (`Infinity` passes); a bad quantity gives the error toast; the payload is the normalised form; a failing `createItem` gives one error toast with its message |
| InventoryForm.PayloadNormalisation | frontend/webapp/src/components/inventory/InventoryForm.tsx:58-66 | the payload has the accepted parsed quantity (not `NaN`, not below zero), the text fields copied untrimmed, empty optional text as null and optional numbers parsed only when non-empty |
| ProviderForm.DotLabelsScan | frontend/webapp/src/components/providers/ProviderForm.tsx:33 | the grammar `([\w-]+\.)+` and its character scan accept the same strings |
| ProviderForm.DotLabelsShape | frontend/webapp/src/components/providers/ProviderForm.tsx:33 | a run of dot-terminated labels ends with a dot and holds only label characters and dots |
| ProviderForm.SplitIsForced | frontend/webapp/src/components/providers/ProviderForm.tsx:33 | every way of matching an address puts the split at its only `@` and after its last dot |
| ProviderForm.RecogniserSound | frontend/webapp/src/components/providers/ProviderForm.tsx:33 | an address the scanner accepts matches the pattern |
| ProviderForm.RecogniserComplete | frontend/webapp/src/components/providers/ProviderForm.tsx:33 | an address matching the pattern is accepted by the scanner |
| ProviderForm.RecogniserIsPattern | frontend/webapp/src/components/providers/ProviderForm.tsx:33 | the scanner accepts exactly the language of the regular expression |
| ProviderForm.AcceptedAddressShape | frontend/webapp/src/components/providers/ProviderForm.tsx:33 | an accepted address has exactly one `@`, a non-empty `[\w.-]` local part, and ends with a dot and a 2 to 4 character label |
| ProviderForm.HandleSubmit | frontend/webapp/src/components/providers/ProviderForm.tsx:29-39 | a blank name or a non-empty e-mail off the pattern gives the error toast and no save; otherwise `onSave` gets the form unchanged, exactly then |
| ProviderForm.EmailCheck | frontend/webapp/src/components/providers/ProviderForm.tsx:33 | the handler's e-mail test rejects exactly the non-empty addresses off the pattern |
| FermentationService.ParseVariable | backend/app/services/fermentation_service.py:20 | a variable is read exactly from its own name |
| FermentationService.MatchTopicExact | backend/app/services/fermentation_service.py:63-67 | a topic is accepted with an id and variable exactly when it is `brewpi/fermentation/` + a non-empty slash-free id + `/` + the variable's name |
| FermentationService.SplitTopicSound | backend/app/services/fermentation_service.py:20 | a split topic has a non-empty slash-free id and rebuilds the topic |
| FermentationService.SplitTopicComplete | backend/app/services/fermentation_service.py:20 | a topic built from a non-empty slash-free id splits back into that id and name |
| FermentationService.TopicsMatched | backend/app/services/fermentation_service.py:63-67 | a rejected topic fits the pattern for no id and variable; an accepted one fits it for exactly the matched pair |
| FermentationService.IndexOfTank | backend/app/services/fermentation_service.py:72 | the position of the tank's entry, or -1 exactly when the tank has none |
| FermentationService.SetValueEffect | backend/app/services/fermentation_service.py:72 | `setdefault(id, {})[var] = value` sets that value over the tank's old ones, keeps every other tank's entry and place, and keeps ids distinct |
| FermentationService.IngestEffect | backend/app/services/fermentation_service.py:62-72 | a topic off the pattern or an unparsable payload leaves the buffer unchanged; otherwise exactly that tank's variable is set |
| FermentationService.FermentationService.Setup | backend/app/services/fermentation_service.py:99-101 | `setup` starts the flush task; buffer and tables are unchanged |
| FermentationService.FermentationService.Listen | backend/app/services/fermentation_service.py:62-72 | `_mqtt_listener` replaces the buffer by the ingested one and leaves the tables alone |
| FermentationService.FlushReadingsExact | backend/app/services/fermentation_service.py:82-91 | the stored readings are exactly the readings of the complete entries, carrying their values; their number plus what remains is the buffer's size |
| FermentationService.RemainingExact | backend/app/services/fermentation_service.py:83-96 | the buffer left holds exactly the incomplete entries, in order |
| FermentationService.WithTanksExact | backend/app/services/fermentation_service.py:92-95 | after the intended flush (see Findings) every complete entry's tank exists, existing tanks are untouched, new ones are named by their id |
| FermentationService.FlushStep | backend/app/services/fermentation_service.py:82-96 | one more entry of the snapshot extends readings, tanks and buffer as the loop body does |
| FermentationService.FermentationService.Flush | backend/app/services/fermentation_service.py:79-97 | the intended pass (see Findings), run by the flush task and keeping it running: an empty buffer changes nothing; otherwise the buffer becomes the incomplete entries, the complete ones are appended as readings and their missing tanks created |
| FermentationService.FermentationService.FlushEntry | backend/app/services/fermentation_service.py:83-96 | one intended step of the loop: a complete entry adds its reading, creates its tank when missing and is deleted; an incomplete one changes nothing |
| FermentationService.CrashPoint | backend/app/services/fermentation_service.py:83-93 | the first complete entry whose tank is not stored, where the autoflush of `db.get` raises, or the buffer's length when there is none |
| FermentationService.FermentationService.FlushAsWritten | backend/app/services/fermentation_service.py:79-97 | the pass as written, which needs the flush task running, raises exactly when some complete entry's tank is not stored; then the task ends for good, the readings are rolled back, the tanks are unchanged and the buffer has lost the complete entries before the crash point; otherwise the readings of the complete entries are stored and only the incomplete entries remain, and no tank is ever created |
| FermentationService.FermentationService.FlushUntilRaise | backend/app/services/fermentation_service.py:83-96 | the loop as written stops exactly at the crash point, with the entries before it flushed as the intended loop flushes them, the tanks unchanged, and the raising entry's reading added but its entry still buffered |
| FermentationService.FermentationService.StepAsWritten | backend/app/services/fermentation_service.py:83-96 | with the entries before `i` flushed, entry `i` raises exactly when `i` is the crash point; otherwise the flushed prefix grows by one entry |
| FermentationService.FermentationService.FlushEntryAsWritten | backend/app/services/fermentation_service.py:83-96 | one step as written: a complete entry adds its reading, then raises when its tank is not stored and is otherwise deleted from the buffer; the tanks never change |
| FermentationService.FlushAsWrittenLosesEntry | backend/app/services/fermentation_service.py:91-96 | for a stored tank's complete entry followed by an unknown tank's, the pass as written raises at the second and leaves only it in the buffer, where the intended pass stores both readings and creates the tank |
| FermentationService.AssignedEffect | backend/app/services/fermentation_service.py:40-46 | after `assign_profile` the tank exists with that profile, a new tank is named by its id, and every other tank is unchanged |
| FermentationService.FermentationService.AssignProfile | backend/app/services/fermentation_service.py:40-46 | the tank table becomes the assigned one; buffer and readings are unchanged |
| FermentationService.InsertDesc | backend/app/services/fermentation_service.py:53 | insertion adds exactly one reading to the multiset |
| FermentationService.InsertDescSorted | backend/app/services/fermentation_service.py:53 | insertion keeps the newest-first order |
| FermentationService.SortDesc | backend/app/services/fermentation_service.py:53 | `order_by(timestamp.desc())` gives a newest-first permutation |
| FermentationService.HistoryAscending | backend/app/services/fermentation_service.py:48-57 | the history has `min(limit, n)` readings in ascending time order |
| FermentationService.HistoryFromTank | backend/app/services/fermentation_service.py:52 | every returned reading is a stored reading of that tank |
| FermentationService.HistoryMostRecent | backend/app/services/fermentation_service.py:53-54 | no reading of the tank left out is more recent than one returned |
| FermentationService.HistoryExact | backend/app/services/fermentation_service.py:48-57 | the four history properties together |
| FermentationService.FermentationService.GetHistory | backend/app/services/fermentation_service.py:48-57 | at most `limit` readings of that tank, in ascending time order |
| FermentationService.FermentationService.GetDefaultHistory | backend/app/services/fermentation_service.py:48-57 | without a `limit`, the `min(2880, n)` most recent readings of the tank, in ascending time order |
| RandomGenerators.RandomWalk | simulador/app/utils/random_generators.py:12-25 | the result is in [minimo, maximo] when minimo <= maximo and is minimo otherwise; an in-bounds sum is returned unchanged; a sum outside is clamped to the nearer bound |
| RandomGenerators.WalkMovesAtMostStep | simulador/app/utils/random_generators.py:24-25 | from a value in bounds a draw in [-paso, paso] moves it by at most paso |
| RandomGenerators.WalkSettles | simulador/app/utils/random_generators.py:24-25 | walking again from a result with a zero draw leaves it in place |
| Simulator.Messages | simulador/app/models/fermenter.py:50-57 | three messages in the order temperature, pressure, co2, each on `brewpi/fermentation/<id>/<variable>`, printed with 2, 3 and 1 decimals |
| Simulator.MessagesRoundTrip | simulador/app/models/fermenter.py:52-56 | for a non-empty slash-free id the backend accepts every topic and reads back the id and variable |
| Simulator.SlashedIdNotRecovered | simulador/app/models/fermenter.py:52-56 | an id holding `/` is never recovered from its topics |
| Simulator.Fermenter.constructor | simulador/app/models/fermenter.py:16-23 | the initial state 20.0 / 1.0 / 0.0, within the bounds |
| Simulator.Fermenter.Step | simulador/app/models/fermenter.py:28-45 | temperature and pressure walk from their old values, CO2 from the logistic curve at the elapsed time, and the new state is within [18, 22], [0.8, 1.2], [0, 100] |
| Simulator.StepIsGradual | simulador/app/models/fermenter.py:38-41 | from a state in bounds temperature moves by at most 0.05 and pressure by at most 0.01 |
| InventoryService.CreateOutcome | backend/app/inventory/service.py:24-32 | a category outside `CATEGORY_ENUM` raises `DataError`; otherwise a taken lot or a negative quantity raises `IntegrityError`; a create is committed exactly when none of these hold |
| InventoryService.CreateEffect | backend/app/inventory/service.py:24-32 | a create stores the item under its lot with every sent field (name, category, quantity, unit, supplier, cost, expiry date, location) and its creation time, and appends one ALTA movement of the initial quantity; other items are unchanged |
| InventoryService.UpdateOutcome | backend/app/inventory/service.py:37-46 | an update of no field is refused (empty `SET`); then a category outside the enum raises `DataError`; then a missing lot raises `NoResultFound`; the update commits exactly when none of these hold, no `NOT NULL` field is sent as null and a sent quantity is not negative |
| InventoryService.UpdateEffect | backend/app/inventory/service.py:37-46 | each of the eight fields keeps its value when not sent and takes the sent value otherwise; the lot number, creation time, other items and the movements are unchanged |
| InventoryService.DeleteEffect | backend/app/inventory/service.py:50-52 | the lot is removed with all its movements (cascade); other items and movements are kept in order |
| InventoryService.ConsumeMissing | backend/app/inventory/service.py:65-67 | consuming a missing lot raises "Item not found" |
| InventoryService.ConsumeOverdraw | backend/app/inventory/service.py:68-69 | consuming more than is available raises "Saldo negativo no permitido" |
| InventoryService.ConsumeEffect | backend/app/inventory/service.py:64-76 | a consume succeeds exactly when the lot exists and has enough; then the balance drops by exactly qty, stays >= 0, and one CONSUMO movement of -qty with the batch id is appended |
| InventoryService.SumAppend | backend/app/inventory/models.py:53-62 | a movement adds its delta to its own lot's sum only |
| InventoryService.SumAfterFilter | backend/app/inventory/models.py:57 | removing another lot's movements keeps a lot's sum |
| InventoryService.EmptyConsistent | backend/app/inventory/models.py:30-62 | empty tables are consistent: each quantity is the sum of its lot's movements |
| InventoryService.CreateKeepsConsistent | backend/app/inventory/service.py:24-32 | create keeps each lot's quantity equal to the sum of its movements |
| InventoryService.ConsumeKeepsConsistent | backend/app/inventory/service.py:64-76 | consume keeps it too |
| InventoryService.DeleteKeepsConsistent | backend/app/inventory/service.py:50-52 | delete keeps it too |
| InventoryService.UpdateKeepsConsistent | backend/app/inventory/service.py:37-46 | an update that does not set the quantity keeps it |
| InventoryService.Queue.Put | backend/app/inventory/service.py:87 | `put` appends the message to the queue |
| InventoryService.InventoryService.RegisterWs | backend/app/inventory/service.py:80-83 | a fresh, empty queue is appended to the listeners |
| InventoryService.InventoryService.Broadcast | backend/app/inventory/service.py:85-87 | the message is appended to every registered queue |
| InventoryService.InventoryService.CreateItem | backend/app/inventory/service.py:24-35 | the tables become the created ones and every queue gets `ALTA`; a refused category, taken lot or negative quantity raises its error, changes nothing and sends nothing |
| InventoryService.InventoryService.UpdateItem | backend/app/inventory/service.py:37-48 | the tables become the updated ones, every queue gets `UPDATE`, the patched item is returned; an empty update, refused category, missing lot, null in a `NOT NULL` field or negative quantity raises its error and changes nothing |
| InventoryService.InventoryService.DeleteItem | backend/app/inventory/service.py:50-53 | the tables lose the lot and its movements, and every queue gets `DELETE` |
| InventoryService.InventoryService.Consume | backend/app/inventory/service.py:64-77 | on success the tables become the consumed ones and every queue gets `CONSUMO` with delta -qty; on an error nothing changes |
| InventoryImporter.ColumnSets | backend/app/inventory/importer.py:13-28 | 5 required and 4 optional names, disjoint, 9 in all |
| InventoryImporter.RequiredSortedIsSorted | backend/app/inventory/importer.py:13-19 | the required names in sorted order are exactly the required set |
| InventoryImporter.SortedMissingExact | backend/app/inventory/importer.py:35 | `sorted(missing)` is strictly ascending and holds exactly the missing names |
| InventoryImporter.SingleMissing | backend/app/inventory/importer.py:34-35 | one missing required column gives "Faltan columnas requeridas: " followed by its name |
| InventoryImporter.FormatOf | backend/app/inventory/importer.py:41-48 | `.csv` gives CSV, `.xlsx` or `.xls` Excel, `.json` JSON; anything else is refused with "Extensión de archivo no soportada" |
| InventoryImporter.SuffixOfName | backend/app/inventory/importer.py:40 | for `dir/stem.ext` the suffix is `.ext` |
| InventoryImporter.DispatchByExtension | backend/app/inventory/importer.py:40-48 | a file `dir/stem.ext` is dispatched on the lower-cased `.ext` |
| InventoryImporter.NoSuffixRefused | backend/app/inventory/importer.py:40-48 | a final name without an inner dot is refused |
| InventoryImporter.ParseUpload | backend/app/inventory/importer.py:39-63 | an unsupported extension raises `ValueError`; a reader's `ValueError` or other exception propagates as it is; missing required columns raise `ImportErrorReport(REQUIRED - present)`; otherwise the records of the narrowed, stripped and coerced frame |
| InventoryImporter.StripAll | backend/app/inventory/importer.py:56 | each label is stripped |
| InventoryImporter.RetainedStripped | backend/app/inventory/importer.py:55-56 | stripping after the filter leaves the retained labels unchanged |
| InventoryImporter.MissingIs | backend/app/inventory/importer.py:50 | the missing names are the required ones absent from the columns |
| InventoryImporter.KnownNamesUnspaced | backend/app/inventory/importer.py:13-28 | no known column name holds white space |
| InventoryImporter.RetainedColumns | backend/app/inventory/importer.py:55 | the retained labels are the input labels in ALL_COLUMNS, in input order, and include every required one when none is missing |
| InventoryImporter.RecordsAt | backend/app/inventory/importer.py:59-63 | one record per row, built from that row |
| InventoryImporter.RecordShape | backend/app/inventory/importer.py:59-60 | a record's quantity is a number or NaN, its cost is coerced or null, and every other cell is copied |
| InventoryImporter.RecordsShape | backend/app/inventory/importer.py:55-63 | each record has all required keys, only known keys, and exactly the retained labels plus `cost` |
| InventoryRouter.HeaderRow | backend/app/routers/inventory.py:34-51 | the first row is the 15 header names, in order |
| InventoryRouter.AttributesStopAt | backend/app/routers/inventory.py:53-69 | a row raises at the first column the item lacks, with that column's `AttributeError` |
| InventoryRouter.RowAsWrittenFails | backend/app/routers/inventory.py:53-59 | building the row of any item raises `AttributeError` for `manufacturer` |
| InventoryRouter.ExportCsvAsWritten | backend/app/routers/inventory.py:51-69 | as written, the export succeeds with the header only for an empty list and raises for any other |
| InventoryRouter.RowOfByName | backend/app/routers/inventory.py:53-69 | a corrected row has 15 fields and field i is the item's attribute named by header i (None when the item lacks it, missing dates as None) |
| InventoryRouter.AttributesAgree | backend/app/routers/inventory.py:53-69 | for an item with every column read, building the row succeeds with those values |
| InventoryRouter.ExportCsv | backend/app/routers/inventory.py:51-69 | the corrected export writes the header and then exactly one row per item, in list order |
| InventoryRouter.Status | backend/app/routers/inventory.py:129-134 | a missing-columns error maps to 422, any other `ValueError` to 400, and an exception of another class, which no clause catches, to 500 |
| InventoryRouter.LotOf | backend/app/routers/inventory.py:145 | `row.get("lot_number", "")` |
| InventoryRouter.ImportStepOutcome | backend/app/routers/inventory.py:138-147 | a row is inserted exactly when it validates, its category is in the enum, its lot is new and its quantity is not negative, and then the tables and broadcasts follow `create_item`; otherwise only one entry for this row is added to `skipped` |
| InventoryRouter.ImportCounts | backend/app/routers/inventory.py:136-148 | `inserted + len(skipped)` is the number of rows, and one message is sent per inserted row |
| InventoryRouter.SkipsExtend | backend/app/routers/inventory.py:143-147 | appending the next row's entry keeps `skipped` well formed |
| InventoryRouter.ImportSkips | backend/app/routers/inventory.py:143-147 | skipped entries carry 1-based row numbers within range, strictly increasing, each with its row's `lot_number` |
| InventoryRouter.ImportKeepsConsistent | backend/app/routers/inventory.py:138-141 | the import keeps every lot's quantity equal to the sum of its movements |
| InventoryRouter.CreateRows | backend/app/routers/inventory.py:136-147 | the loop leaves the tallies, tables and queues as the row-by-row fold over the records says |
| InventoryRouter.ImportBulk | backend/app/routers/inventory.py:110-148 | a parse error becomes 422 or 400, and an uncaught reader exception 500, before any insertion, with tables and queues unchanged; otherwise the response carries the loop's tallies |
| Validators.RangoValido | utils/validators.py:15-19 | a value is accepted unchanged exactly when -40 <= v <= 150, and rejected with the range message otherwise |
| Validators.BoundsInclusive | utils/validators.py:17 | both bounds are accepted, and values just outside them are not |
| Validators.RevalidationIsStable | utils/validators.py:17-19 | validating an accepted value again accepts it unchanged |

## Left out

- Rendering, animations, the `setInterval` and `useEffect` lifecycles, and the interleaving of the
  two timers of the brewery store are UI scheduling. Each tick is modelled on its own.
- The toasts are recorded as values and never affect state. The inventory form's success toast,
  its `onCreated` callback and its loading flag are not recorded.
- `Math.random()`, `new Date()`, `datetime.utcnow()`, `random.uniform`, `time.time()` and
  `curva_logistica` are parameters. The logistic curve is floating point and is not modelled.
- Numbers are unbounded reals. Decimal precision (`Numeric(12, 3)`), float rounding and the
  `:.2f`-style formatting of payloads are out; a payload records its value and its number of
  decimals.
- `toLowerCase`, `lower()` and `strip()` are modelled on ASCII only. Unicode case folding and
  Unicode white space are out.
- `pathlib.Path.suffix` is modelled for plain file names. Special names such as `..` and Windows
  separators are out.
- `float(payload.decode())`, `parseFloat`, the pandas readers, `pd.to_numeric` on a text cell,
  pydantic validation of an import row, and `str()` of a service exception are abstract
  parameters. A reader may return a frame or fail with a `ValueError` or another exception;
  which inputs make it fail is not modelled.
- The flush loop runs beside the MQTT listener. Its `await db.get(...)` lets the listener run in
  the middle of a pass, so a value that arrives then for the tank being flushed is deleted with
  the entry without being stored. Each flush pass is modelled as one uninterrupted step, and
  the listener as a step between passes.
- SQLAlchemy sessions are modelled as committed tables. An `IntegrityError` during an import
  leaves the real session needing a rollback, so later rows would also fail. The model lets
  each row commit or fail on its own.
- The order of `list_items` and the creation of the `inventory_transactions` table by the
  migration are out. The model follows the ORM classes, with cascading deletes.
- The CSV text itself (quoting, separators, the streaming response) is out. A row is the list of
  values handed to `csv.writer`.
- The WebSocket endpoint that drains a queue, the MQTT clients and the `get_transactions` query
  are I/O plumbing.
- FermentationService.FermentationService.GetHistory: its contract states only the bound, the
  order and the origin of the readings. The "most recent" property is proved by
  `HistoryMostRecent` and `HistoryExact`.
- InventoryImporter.SortedMissingExact: stated only for sets of required names, the only sets
  `parse_upload` reports.
- InventoryService.UpdateKeepsConsistent: stated only for updates that do not set the quantity.
  An update that sets the quantity breaks the sum invariant, as the source allows.
- BreweryContext.PidTick: the exact tick is stated for distinct controller ids. With repeated
  ids each position gets the tick of the last enabled controller with its id.
- ProcessTimerWidget.StepProgressBounds: requires a positive duration. A zero duration divides
  by zero and gives `Infinity` or `NaN` in JavaScript, which is not modelled.

## Findings

| source | as written | input that shows it | evidently intended | confidence | as-written member | corrected member |
|---|---|---|---|---|---|---|
| backend/app/services/fermentation_service.py:91-96 | `db.add(reading)` comes before `await db.get(FermentationTank, tank_id)`, and the session autoflushes; for a tank with no row the flushed reading breaks the foreign key of `fermentation_readings.tank_id`, the `IntegrityError` ends `_flush_loop`, the pass is rolled back and the entries it already deleted are lost | a buffer with a complete entry for stored tank `a` and then one for unknown tank `b` (`FlushAsWrittenLosesEntry`) | the missing tank is created and every complete entry's reading is stored | medium, not executed | FermentationService.FermentationService.FlushAsWritten | FermentationService.FermentationService.Flush |
| backend/app/routers/inventory.py:59-66 | each export row reads `it.manufacturer`, `it.safety_stock`, `it.min_order_qty`, `it.package_size` and `it.origin`, which `InventoryItem` (backend/app/inventory/models.py:30-50) does not declare | any non-empty inventory: the sixth field raises `AttributeError` and the export fails | one row of 15 fields per item, with the attributes the item lacks written empty | not executed | InventoryRouter.ExportCsvAsWritten | InventoryRouter.ExportCsv |
