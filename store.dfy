/** The database side of "Add Evidence": the devices and requests tables,
    the device_id sequence, and the one connection the intake uses, with
    its open transaction, commit and rollback. Submit runs the intake the
    way the page does: gate, insert device, generate the exhibit number
    from the new id, update the device, insert the request, commit, and
    roll back on any exception. */
module Store {
  import opened Wrappers
  import opened Exhibit
  import opened Intake

  /** The statement at which the environment raises, if any: reading an
      uploaded image, or one of the four database calls (a connection
      loss or a constraint the model does not track). A device insert
      that raises may or may not have drawn its id from the sequence
      (drawsId): a statement lost before the server or rejected while it
      is planned draws nothing. A commit that raises may have taken effect
      on the server all the same (published), when the connection is lost
      after the server committed. */
  datatype Fault = NoFault | ImageReadFault | DeviceInsertFault(drawsId: bool) | ExhibitUpdateFault
                 | RequestInsertFault | CommitFault(published: bool)

  /** Which step of the intake raised. */
  datatype FailureCause = ImageRead | DeviceInsert | ExhibitNumberFailed(error: ExhibitError)
                        | ExhibitUpdate | RequestInsert | CommitFailed

  /** The two messages the page can show instead of success. */
  datatype IntakeError = MissingRequiredFields | IntakeFailed(cause: FailureCause)

  /** What a successful intake produced: the fresh id and its exhibit
      number. The page itself shows only a fixed success message. */
  datatype Receipt = Receipt(deviceId: nat, exhibitNumber: string)

  /** The device's exhibit number is set and was generated for this very
      device: it reads back as this id and this device type's code. */
  predicate HasOwnExhibitNumber(id: nat, d: Device)
  {
    && d.exhibitNumber.Some?
    && var parts := ParseExhibitNumber(d.exhibitNumber.value);
    && parts.Some?
    && parts.value.deviceId == id
    && parts.value.code == DeviceCode(d.deviceType)
  }

  /** The row a committed device id must satisfy, if the id is in use:
      it carries its own exhibit number and its custom type follows its
      rule. */
  ghost predicate DeviceRowOk(devices: map<nat, Device>, id: nat)
  {
    id in devices ==> HasOwnExhibitNumber(id, devices[id]) && CustomTypeRule(devices[id])
  }

  /** A committed request carries release details exactly when Released. */
  ghost predicate RequestRowOk(requests: map<nat, Request>, id: nat)
  {
    id in requests ==> ReleaseFieldsRule(requests[id])
  }

  /** What committed data always satisfies: every device has its request
      and every request its device, every id was drawn from the sequence,
      and every row is as above. */
  ghost predicate Consistent(devices: map<nat, Device>, requests: map<nat, Request>, nextId: nat)
  {
    && requests.Keys == devices.Keys
    && (forall id :: id in devices ==> id < nextId)
    && (forall id :: DeviceRowOk(devices, id))
    && (forall id :: RequestRowOk(requests, id))
  }

  /** Whether an intake's writes reach the committed tables: the gate
      passes, both names are non-empty, and nothing raises before the
      commit has taken effect on the server. */
  predicate Publishes(form: Form, firstName: string, lastName: string, fault: Fault)
  {
    && RequiredFieldsPresent(form) && firstName != [] && lastName != []
    && (fault == NoFault || fault == CommitFault(true))
  }

  /** The device row an intake commits carries its own exhibit number. */
  lemma GeneratedNumberIsOwn(form: Form, firstName: string, lastName: string, id: nat, now: DateTime)
    requires ValidDateTime(now)
    requires GenerateExhibitNumber(form.deviceType, firstName, lastName, id, now).Ok?
    ensures HasOwnExhibitNumber(id, ShapeDevice(form).(exhibitNumber :=
              Some(GenerateExhibitNumber(form.deviceType, firstName, lastName, id, now).value)))
  {
    ExhibitNumberRoundTrip(form.deviceType, firstName, lastName, id, now);
  }

  /** The two rows one successful intake writes under the freshly drawn id
      keep consistent tables consistent: committing them can never publish
      a device without its exhibit number or a request without its device. */
  lemma IntakeKeepsConsistent(devices: map<nat, Device>, requests: map<nat, Request>, id: nat,
                              form: Form, firstName: string, lastName: string,
                              releaseStamp: DateTime, now: DateTime, exhibitNumber: string)
    requires Consistent(devices, requests, id)
    requires ValidDateTime(now)
    requires GenerateExhibitNumber(form.deviceType, firstName, lastName, id, now) == Ok(exhibitNumber)
    ensures Consistent(devices[id := ShapeDevice(form).(exhibitNumber := Some(exhibitNumber))],
                       requests[id := ShapeRequest(form, releaseStamp)], id + 1)
  {
    var d := ShapeDevice(form).(exhibitNumber := Some(exhibitNumber));
    GeneratedNumberIsOwn(form, firstName, lastName, id, now);
    var devices', requests' := devices[id := d], requests[id := ShapeRequest(form, releaseStamp)];
    forall k ensures DeviceRowOk(devices', k) {
      assert DeviceRowOk(devices, k);
    }
    forall k ensures RequestRowOk(requests', k) {
      assert RequestRowOk(requests, k);
    }
  }

  /** No two committed devices share an exhibit number. */
  lemma ExhibitNumbersUnique(devices: map<nat, Device>, requests: map<nat, Request>, nextId: nat,
                             a: nat, b: nat)
    requires Consistent(devices, requests, nextId)
    requires a in devices && b in devices && a != b
    ensures devices[a].exhibitNumber != devices[b].exhibitNumber
  {
    assert DeviceRowOk(devices, a) && DeviceRowOk(devices, b);
  }

  /** rows is a result of the devices-requests join: one row per id present
      in both tables, carrying that id's device and request. */
  predicate IsJoinOf(rows: seq<JoinedRow>, devices: map<nat, Device>, requests: map<nat, Request>)
  {
    && (forall i :: 0 <= i < |rows| ==>
          && rows[i].deviceId in devices && rows[i].deviceId in requests
          && rows[i].device == devices[rows[i].deviceId]
          && rows[i].request == requests[rows[i].deviceId])
    && (forall i, j :: 0 <= i < j < |rows| ==> rows[i].deviceId != rows[j].deviceId)
    && (forall id :: id in devices && id in requests ==> exists i :: 0 <= i < |rows| && rows[i].deviceId == id)
  }

  /** Over committed data the join loses no device, and every row the
      page lists has an exhibit number generated for its own device. */
  lemma JoinOfConsistentData(devices: map<nat, Device>, requests: map<nat, Request>, nextId: nat,
                             rows: seq<JoinedRow>, i: nat)
    requires Consistent(devices, requests, nextId)
    requires IsJoinOf(rows, devices, requests)
    requires i < |rows|
    ensures |rows| == |devices|
    ensures HasOwnExhibitNumber(rows[i].deviceId, rows[i].device)
  {
    var ids := set k | 0 <= k < |rows| :: rows[k].deviceId;
    assert ids == devices.Keys;
    JoinSize(rows);
    assert DeviceRowOk(devices, rows[i].deviceId);
  }

  /** A sequence of distinct ids has as many elements as the set of ids. */
  lemma {:induction false} JoinSize(rows: seq<JoinedRow>)
    requires forall i, j :: 0 <= i < j < |rows| ==> rows[i].deviceId != rows[j].deviceId
    ensures |set k | 0 <= k < |rows| :: rows[k].deviceId| == |rows|
    decreases |rows|
  {
    if rows != [] {
      var last := |rows| - 1;
      var front := rows[..last];
      JoinSize(front);
      var s := set k | 0 <= k < |rows| :: rows[k].deviceId;
      var t := set k | 0 <= k < |front| :: front[k].deviceId;
      assert s == t + {rows[last].deviceId};
      assert rows[last].deviceId !in t;
    }
  }

  class EvidenceDb {
    /** The tables as the intake's connection sees them, its own
        uncommitted writes included. */
    var devices: map<nat, Device>
    var requests: map<nat, Request>
    /** The tables as every other connection (the search page) sees them. */
    var committedDevices: map<nat, Device>
    var committedRequests: map<nat, Request>
    /** The next value of the device_id sequence; sequences are not rolled
        back, so an aborted intake leaves a gap. */
    var nextId: nat

    ghost predicate Valid()
      reads this
    {
      && 1 <= nextId
      && Consistent(committedDevices, committedRequests, nextId)
      && Drawn()
    }

    /** Every id this connection sees was drawn from the sequence. */
    predicate Drawn()
      reads this
    {
      forall id :: id in devices ==> id < nextId
    }

    /** No transaction is open: this connection sees what everyone sees. */
    predicate Idle()
      reads this
    {
      devices == committedDevices && requests == committedRequests
    }

    /** An empty database whose sequence starts at 1. */
    constructor ()
      ensures Valid() && Idle()
      ensures committedDevices == map[] && committedRequests == map[] && nextId == 1
    {
      devices, requests := map[], map[];
      committedDevices, committedRequests := map[], map[];
      nextId := 1;
    }

    /** INSERT INTO devices ... RETURNING device_id: draws the next id from
        the sequence and, unless the statement raises, adds the row. A
        statement that raises has drawn the id only when drawsBeforeRaising. */
    method InsertDevice(d: Device, raises: bool, drawsBeforeRaising: bool) returns (id: nat, ok: bool)
      requires Drawn()
      modifies this
      ensures Drawn()
      ensures id == old(nextId) && id !in old(devices)
      ensures ok == !raises
      ensures nextId == old(nextId) + (if ok || drawsBeforeRaising then 1 else 0)
      ensures devices == if ok then old(devices)[id := d] else old(devices)
      ensures requests == old(requests)
      ensures committedDevices == old(committedDevices) && committedRequests == old(committedRequests)
    {
      id := nextId;
      ok := !raises;
      if ok || drawsBeforeRaising {
        nextId := nextId + 1;
      }
      if ok {
        devices := devices[id := d];
      }
    }

    /** UPDATE devices SET exhibit_number WHERE device_id: changes the row
        with that id, if there is one; a missing id is not an error. */
    method UpdateExhibitNumber(id: nat, exhibitNumber: string, raises: bool) returns (ok: bool)
      requires Drawn()
      modifies this
      ensures Drawn()
      ensures ok == !raises
      ensures devices == if ok && id in old(devices)
                         then old(devices)[id := old(devices)[id].(exhibitNumber := Some(exhibitNumber))]
                         else old(devices)
      ensures requests == old(requests) && nextId == old(nextId)
      ensures committedDevices == old(committedDevices) && committedRequests == old(committedRequests)
    {
      ok := !raises;
      if ok && id in devices {
        devices := devices[id := devices[id].(exhibitNumber := Some(exhibitNumber))];
      }
    }

    /** INSERT INTO requests: fails on the foreign key (no such device) and
        on the one-request-per-device key, and when the statement raises. */
    method InsertRequest(id: nat, r: Request, raises: bool) returns (ok: bool)
      requires Drawn()
      modifies this
      ensures Drawn()
      ensures ok <==> !raises && id in old(devices) && id !in old(requests)
      ensures requests == if ok then old(requests)[id := r] else old(requests)
      ensures devices == old(devices) && nextId == old(nextId)
      ensures committedDevices == old(committedDevices) && committedRequests == old(committedRequests)
    {
      ok := !raises && id in devices && id !in requests;
      if ok {
        requests := requests[id := r];
      }
    }

    /** conn.commit(): publishes this connection's writes. A commit that
        raises has published them anyway when publishedBeforeRaising. */
    method Commit(raises: bool, publishedBeforeRaising: bool) returns (ok: bool)
      requires Valid()
      requires Consistent(devices, requests, nextId)
      modifies this
      ensures Valid()
      ensures ok == !raises
      ensures devices == old(devices) && requests == old(requests) && nextId == old(nextId)
      ensures committedDevices == (if ok || publishedBeforeRaising then old(devices) else old(committedDevices))
      ensures committedRequests == (if ok || publishedBeforeRaising then old(requests) else old(committedRequests))
    {
      ok := !raises;
      if ok || publishedBeforeRaising {
        committedDevices, committedRequests := devices, requests;
      }
    }

    /** conn.rollback(): discards this connection's writes; the sequence
        keeps its value. */
    method Rollback()
      requires Valid()
      modifies this
      ensures Valid() && Idle()
      ensures committedDevices == old(committedDevices) && committedRequests == old(committedRequests)
      ensures nextId == old(nextId)
    {
      devices, requests := committedDevices, committedRequests;
    }

    /** The three writes of an intake inside the open transaction: the
        device row, its exhibit number, the request row. cause is the step
        that raised, if one did; the transaction is left open either way. */
    method WriteRows(form: Form, firstName: string, lastName: string,
                     releaseStamp: DateTime, now: DateTime, fault: Fault)
      returns (id: nat, exhibitNumber: string, cause: Option<FailureCause>)
      requires Valid() && Idle()
      requires ValidDateTime(now)
      modifies this
      ensures Valid()
      ensures id == old(nextId) && id !in old(committedDevices)
      ensures nextId == old(nextId) + (if fault == DeviceInsertFault(false) then 0 else 1)
      ensures committedDevices == old(committedDevices) && committedRequests == old(committedRequests)
      ensures cause.None? <==> firstName != [] && lastName != [] && !fault.DeviceInsertFault?
                               && fault != ExhibitUpdateFault && fault != RequestInsertFault
      ensures (firstName == [] || lastName == []) && !fault.DeviceInsertFault? ==>
                cause == Some(ExhibitNumberFailed(EmptyName))
      ensures cause.None? ==>
                && GenerateExhibitNumber(form.deviceType, firstName, lastName, id, now) == Ok(exhibitNumber)
                && devices == old(devices)[id := ShapeDevice(form).(exhibitNumber := Some(exhibitNumber))]
                && requests == old(requests)[id := ShapeRequest(form, releaseStamp)]
    {
      exhibitNumber := "";
      var device := ShapeDevice(form);
      var inserted;
      id, inserted := InsertDevice(device, fault.DeviceInsertFault?, fault == DeviceInsertFault(true));
      if !inserted {
        return id, exhibitNumber, Some(DeviceInsert);
      }
      var exhibit := GenerateExhibitNumber(form.deviceType, firstName, lastName, id, now);
      if exhibit.Err? {
        return id, exhibitNumber, Some(ExhibitNumberFailed(exhibit.error));
      }
      exhibitNumber := exhibit.value;
      var updated := UpdateExhibitNumber(id, exhibitNumber, fault == ExhibitUpdateFault);
      if !updated {
        return id, exhibitNumber, Some(ExhibitUpdate);
      }
      var request := ShapeRequest(form, releaseStamp);
      var requested := InsertRequest(id, request, fault == RequestInsertFault);
      if !requested {
        return id, exhibitNumber, Some(RequestInsert);
      }
      cause := None;
    }

    /** The submit handler of "Add Evidence". firstName and lastName are the
        logged-in user's; releaseStamp is the clock reading taken when the
        release inputs were shown, now the one the generator takes. */
    method Submit(form: Form, firstName: string, lastName: string,
                  releaseStamp: DateTime, now: DateTime, fault: Fault)
      returns (result: Result<Receipt, IntakeError>)
      requires Valid() && Idle()
      requires ValidDateTime(now)
      modifies this
      ensures Valid() && Idle()
      // the gate: an incomplete form is refused before anything is written
      ensures result == Err(MissingRequiredFields) <==> !RequiredFieldsPresent(form)
      ensures !RequiredFieldsPresent(form) ==> nextId == old(nextId)
      // success exactly when the gate passes, both names are non-empty and nothing raises
      ensures result.Ok? <==> RequiredFieldsPresent(form) && firstName != [] && lastName != [] && fault == NoFault
      ensures RequiredFieldsPresent(form) && (firstName == [] || lastName == [])
              && fault != ImageReadFault && !fault.DeviceInsertFault? ==>
                result == Err(IntakeFailed(ExhibitNumberFailed(EmptyName)))
      // the result carries the fresh id and its number; the page itself shows a fixed success message
      ensures result.Ok? ==>
                && result.value.deviceId == old(nextId) && old(nextId) !in old(committedDevices)
                && GenerateExhibitNumber(form.deviceType, firstName, lastName, old(nextId), now)
                     == Ok(result.value.exhibitNumber)
      // a commit that took effect on the server before it raised is reported as a failure
      ensures Publishes(form, firstName, lastName, fault) && result.Err? ==>
                result == Err(IntakeFailed(CommitFailed))
      // all three writes: a fresh id, its device with its exhibit number, its request
      ensures Publishes(form, firstName, lastName, fault) ==>
                && nextId == old(nextId) + 1
                && committedDevices == old(committedDevices)[old(nextId) :=
                     ShapeDevice(form).(exhibitNumber := Some(
                       GenerateExhibitNumber(form.deviceType, firstName, lastName, old(nextId), now).value))]
                && committedRequests == old(committedRequests)[old(nextId) := ShapeRequest(form, releaseStamp)]
      // or none of them
      ensures !Publishes(form, firstName, lastName, fault) ==>
                committedDevices == old(committedDevices) && committedRequests == old(committedRequests)
      ensures RequiredFieldsPresent(form) && !Publishes(form, firstName, lastName, fault) ==>
                nextId == old(nextId) + (if fault == ImageReadFault || fault == DeviceInsertFault(false) then 0 else 1)
    {
      if !RequiredFieldsPresent(form) {
        return Err(MissingRequiredFields);
      }
      if fault == ImageReadFault {
        Rollback();
        return Err(IntakeFailed(ImageRead));
      }
      var id, exhibitNumber, cause := WriteRows(form, firstName, lastName, releaseStamp, now, fault);
      if cause.Some? {
        Rollback();
        return Err(IntakeFailed(cause.value));
      }
      IntakeKeepsConsistent(old(committedDevices), old(committedRequests), id,
                            form, firstName, lastName, releaseStamp, now, exhibitNumber);
      var committed := Commit(fault.CommitFault?, fault == CommitFault(true));
      if !committed {
        Rollback();
        return Err(IntakeFailed(CommitFailed));
      }
      result := Ok(Receipt(id, exhibitNumber));
    }
  }

  /** Two intakes as a caller sees them through the contracts alone: a
      Pending smartphone submitted by Jane Doe gets exhibit number
      NCCC/SP/1024/JD/1 and a request with no release details; a Released
      intake whose release contacts were left empty is still accepted. */
  method IntakeScenario()
  {
    var db := new EvidenceDb();
    var october := DateTime(2024, 10, 17, 9, 30, 0);
    var form := Form("Smartphone", "", "Samsung", "A52", "Black", "CASE-1", "", "", "",
                     None, None, "", "Cyber Unit", "Forensics", "Sam", "", october,
                     Pending, "", "");
    var r := db.Submit(form, "Jane", "Doe", october, october, NoFault);
    assert r.Ok?;
    assert r.value.deviceId == 1;
    assert r.value.exhibitNumber == "NCCC/SP/1024/JD/1";
    var request := db.committedRequests[1];
    assert request.releaseContactName == None && request.releaseDate == None;

    var released := form.(referenceNumber := "CASE-2", extractionStatus := Released);
    var r2 := db.Submit(released, "Jane", "Doe", october, october, NoFault);
    assert r2.Ok? && r2.value.deviceId == 2;
    assert db.committedRequests[2].releaseContactName == Some("");
    assert db.committedRequests[2].releaseDate == Some(october);

    var incomplete := form.(investigatorName := "");
    var r3 := db.Submit(incomplete, "Jane", "Doe", october, october, NoFault);
    assert r3 == Err(MissingRequiredFields);
    assert db.committedDevices.Keys == {1, 2};
  }

  /** Two failed intakes: a commit that takes effect on the server before
      the connection drops publishes the rows while the page reports a
      failure; a device insert rejected before its id is drawn leaves no
      gap in the ids. */
  method FailureScenario()
  {
    var db := new EvidenceDb();
    var october := DateTime(2024, 10, 17, 9, 30, 0);
    var form := Form("Laptop", "", "Dell", "XPS", "Grey", "CASE-3", "", "", "",
                     None, None, "", "Cyber Unit", "Forensics", "Sam", "", october,
                     Pending, "", "");
    var r := db.Submit(form, "Jane", "Doe", october, october, CommitFault(true));
    assert r == Err(IntakeFailed(CommitFailed));
    assert db.committedDevices.Keys == {1};
    assert DeviceCode("Laptop") == "L";
    assert MonthYearToken(october) == "1024";
    assert Initials("Jane", "Doe") == Ok("JD");
    assert Text.NatToString(1) == "1";
    assert Organisation + "/" + "L" + "/" + "1024" + "/" + "JD" + "/" + "1" == "NCCC/L/1024/JD/1";
    assert db.committedDevices[1].exhibitNumber == Some("NCCC/L/1024/JD/1");

    var rejected := form.(referenceNumber := "CASE-4");
    var r2 := db.Submit(rejected, "Jane", "Doe", october, october, DeviceInsertFault(false));
    assert r2.Err?;
    assert db.nextId == 2 && db.committedDevices.Keys == {1};
  }
}
