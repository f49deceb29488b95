/** The new-trip form (offline-activity-assistant/app/new-trips.tsx): the
    three required fields are checked in order, and a valid form is
    appended as a new trip to the list kept under the storage key 'trips'. */
module NewTrips {
  import opened Wrappers
  import opened Text

  datatype Trip = Trip(id: string, name: string, destination: string, startDate: string,
                       endDate: string, activities: string, notes: string)

  /** The six text inputs of the form. */
  datatype TripForm = TripForm(tripName: string, destination: string, startDate: string,
                               endDate: string, activities: string, notes: string)

  /** `Alert.alert(title, message)`. */
  datatype Alert = Alert(title: string, message: string)

  const NameRequired := Alert("Error", "Trip name is required")
  const DestinationRequired := Alert("Error", "Destination is required")
  const StartDateRequired := Alert("Error", "Start date is required")
  const SaveFailed := Alert("Error", "Failed to save trip. Please try again later.")
  const Saved := Alert("Success", "Trip saved successfully!")

  /** `validateForm`: the alert of the first required field that is blank
      after trimming, or None when the form is valid. */
  function ValidateForm(form: TripForm): Option<Alert>
  {
    if Trim(form.tripName) == "" then Some(NameRequired)
    else if Trim(form.destination) == "" then Some(DestinationRequired)
    else if Trim(form.startDate) == "" then Some(StartDateRequired)
    else None
  }

  /** The form is valid exactly when none of the three required fields is
      all whitespace; a failure reports the first blank field, in the order
      name, destination, start date. */
  lemma ValidateFormIff(form: TripForm)
    ensures ValidateForm(form).None? <==>
      !AllSpace(form.tripName) && !AllSpace(form.destination) && !AllSpace(form.startDate)
    ensures AllSpace(form.tripName) ==> ValidateForm(form) == Some(NameRequired)
    ensures !AllSpace(form.tripName) && AllSpace(form.destination) ==> ValidateForm(form) == Some(DestinationRequired)
    ensures !AllSpace(form.tripName) && !AllSpace(form.destination) && AllSpace(form.startDate) ==>
      ValidateForm(form) == Some(StartDateRequired)
  {
    TrimEmptyIff(form.tripName);
    TrimEmptyIff(form.destination);
    TrimEmptyIff(form.startDate);
  }

  /** End date, activities and notes are never checked. */
  lemma OptionalFieldsIgnored(name: string, destination: string, startDate: string,
                              endDate1: string, activities1: string, notes1: string,
                              endDate2: string, activities2: string, notes2: string)
    ensures ValidateForm(TripForm(name, destination, startDate, endDate1, activities1, notes1))
         == ValidateForm(TripForm(name, destination, startDate, endDate2, activities2, notes2))
  {
    var f1 := TripForm(name, destination, startDate, endDate1, activities1, notes1);
    var f2 := TripForm(name, destination, startDate, endDate2, activities2, notes2);
    if Trim(name) == "" {
      assert ValidateForm(f1) == Some(NameRequired) == ValidateForm(f2);
    } else if Trim(destination) == "" {
      assert ValidateForm(f1) == Some(DestinationRequired) == ValidateForm(f2);
    } else if Trim(startDate) == "" {
      assert ValidateForm(f1) == Some(StartDateRequired) == ValidateForm(f2);
    } else {
      assert ValidateForm(f1) == None == ValidateForm(f2);
    }
  }

  /** The trip built from the form: every value copied as typed, the id
      the decimal text of the current time in milliseconds. */
  function NewTrip(form: TripForm, now: nat): Trip
  {
    Trip(NatToString(now), form.tripName, form.destination, form.startDate, form.endDate, form.activities, form.notes)
  }

  /** What `AsyncStorage.getItem('trips')` holds: a saved list, the empty
      text, or text that is not a list of trips (`JSON.parse` raises, or
      `push` is called on a value that is not an array). */
  datatype TripsItem = TripList(trips: seq<Trip>) | EmptyText | NotAList

  /** The list `push` appends to: `[]` for a missing item or the empty
      text, the saved list otherwise; None when reading or decoding fails. */
  function StoredTrips(item: Option<TripsItem>, readOk: bool): Option<seq<Trip>>
  {
    if !readOk then None
    else match item
      case None => Some([])
      case Some(EmptyText) => Some([])
      case Some(TripList(trips)) => Some(trips)
      case Some(NotAList) => None
  }

  /** The alert shown and the stored item after `saveTrip`. */
  datatype SaveOutcome = SaveOutcome(alert: Alert, item: Option<TripsItem>)

  function SaveSpec(form: TripForm, item: Option<TripsItem>, now: nat, readOk: bool, writeOk: bool): SaveOutcome
  {
    match ValidateForm(form)
    case Some(a) => SaveOutcome(a, item)
    case None =>
      match StoredTrips(item, readOk)
      case None => SaveOutcome(SaveFailed, item)
      case Some(trips) =>
        if writeOk then SaveOutcome(Saved, Some(TripList(trips + [NewTrip(form, now)])))
        else SaveOutcome(SaveFailed, item)
  }

  /** A form that fails validation writes nothing. */
  lemma InvalidFormWritesNothing(form: TripForm, item: Option<TripsItem>, now: nat, readOk: bool, writeOk: bool)
    requires ValidateForm(form).Some?
    ensures SaveSpec(form, item, now, readOk, writeOk) == SaveOutcome(ValidateForm(form).value, item)
  {
  }

  /** A successful save keeps every earlier trip in place and order and
      adds exactly one at the end, holding the form values untrimmed. */
  lemma SaveAppendsOne(form: TripForm, trips: seq<Trip>, now: nat)
    requires ValidateForm(form).None?
    ensures var out := SaveSpec(form, Some(TripList(trips)), now, true, true);
      && out.alert == Saved
      && out.item.Some? && out.item.value.TripList?
      && var saved := out.item.value.trips;
      && |saved| == |trips| + 1
      && saved[..|trips|] == trips
      && saved[|trips|].name == form.tripName && saved[|trips|].destination == form.destination
      && saved[|trips|].startDate == form.startDate && saved[|trips|].endDate == form.endDate
      && saved[|trips|].activities == form.activities && saved[|trips|].notes == form.notes
  {
    var saved := trips + [NewTrip(form, now)];
    assert saved[..|trips|] == trips;
  }

  /** The first trip saved starts a list of one. */
  lemma FirstSave(form: TripForm, now: nat)
    requires ValidateForm(form).None?
    ensures SaveSpec(form, None, now, true, true).item == Some(TripList([NewTrip(form, now)]))
    ensures SaveSpec(form, Some(EmptyText), now, true, true).item == Some(TripList([NewTrip(form, now)]))
  {
    var t := NewTrip(form, now);
    assert StoredTrips(None, true) == Some([]) && StoredTrips(Some(EmptyText), true) == Some([]);
    assert [] + [t] == [t];
  }

  /** A read, decode or write failure shows the failure alert and leaves
      the stored item as it was. */
  lemma FailedSaveKeepsStore(form: TripForm, item: Option<TripsItem>, now: nat, readOk: bool, writeOk: bool)
    requires ValidateForm(form).None?
    requires !readOk || !writeOk || item == Some(NotAList)
    ensures SaveSpec(form, item, now, readOk, writeOk) == SaveOutcome(SaveFailed, item)
  {
  }

  /** The outcome of a valid form, once the stored list has been read. */
  lemma SaveSteps(form: TripForm, item: Option<TripsItem>, now: nat, readOk: bool, writeOk: bool)
    requires ValidateForm(form).None?
    ensures StoredTrips(item, readOk).None? ==> SaveSpec(form, item, now, readOk, writeOk) == SaveOutcome(SaveFailed, item)
    ensures StoredTrips(item, readOk).Some? && !writeOk ==>
      SaveSpec(form, item, now, readOk, writeOk) == SaveOutcome(SaveFailed, item)
    ensures StoredTrips(item, readOk).Some? && writeOk ==>
      SaveSpec(form, item, now, readOk, writeOk)
        == SaveOutcome(Saved, Some(TripList(StoredTrips(item, readOk).value + [NewTrip(form, now)])))
  {
  }

  /** AsyncStorage, reduced to the 'trips' item. */
  class TripStore {
    var item: Option<TripsItem>

    constructor (item: Option<TripsItem>)
      ensures this.item == item
    {
      this.item := item;
    }
  }

  /** The form screen's state. */
  class NewTripScreen {
    var form: TripForm
    var isSubmitting: bool
    /** The alerts shown so far. */
    var alerts: seq<Alert>
    const store: TripStore

    constructor (store: TripStore)
      ensures form == TripForm("", "", "", "", "", "") && !isSubmitting && alerts == [] && this.store == store
    {
      form := TripForm("", "", "", "", "", "");
      isSubmitting := false;
      alerts := [];
      this.store := store;
    }

    /** `saveTrip`; `now` is `Date.now()`, `readOk` and `writeOk` say
        whether `getItem` and `setItem` resolve. */
    method SaveTrip(now: nat, readOk: bool, writeOk: bool)
      modifies this`isSubmitting, this`alerts, store
      ensures var out := SaveSpec(form, old(store.item), now, readOk, writeOk);
        && alerts == old(alerts) + [out.alert]
        && store.item == out.item
        && isSubmitting == (if ValidateForm(form).Some? then old(isSubmitting) else false)
    {
      var invalid := ValidateForm(form);
      if invalid.Some? {
        InvalidFormWritesNothing(form, store.item, now, readOk, writeOk);
        alerts := alerts + [invalid.value];
        return;
      }
      ghost var item0 := store.item;
      isSubmitting := true;
      var id := NatToString(now);
      var newTrip := Trip(id, form.tripName, form.destination, form.startDate, form.endDate, form.activities, form.notes);
      var stored := StoredTrips(store.item, readOk);
      SaveSteps(form, item0, now, readOk, writeOk);
      if stored.None? {
        alerts := alerts + [SaveFailed];
      } else {
        var trips := stored.value;
        trips := trips + [newTrip];
        if writeOk {
          store.item := Some(TripList(trips));
          alerts := alerts + [Saved];
        } else {
          alerts := alerts + [SaveFailed];
        }
      }
      isSubmitting := false;
    }
  }
}
