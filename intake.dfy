/** The intake form of the "Add Evidence" page and the rows it produces:
    the required-field gate and the shaping of the conditional fields
    (custom device type, release details). */
module Intake {
  import opened Wrappers
  import opened Exhibit

  type Bytes = seq<bv8>

  /** The four extraction statuses the form offers. */
  datatype Status = Pending | Processing | Completed | Released

  /** The widget values at the moment the form is submitted. The custom
      device type and the release contacts are what the user typed into
      the inputs shown conditionally (empty when they were not shown). */
  datatype Form = Form(
    deviceType: string,
    customDeviceTypeInput: string,
    make: string,
    model: string,
    color: string,
    referenceNumber: string,
    description: string,
    serialNumber: string,
    imeiNumber: string,
    frontImage: Option<Bytes>,
    backImage: Option<Bytes>,
    pinPasswordPattern: string,
    unit: string,
    department: string,
    investigatorName: string,
    investigatorPhone: string,
    dateOfUse: DateTime,
    extractionStatus: Status,
    releaseContactNameInput: string,
    releaseContactPhoneInput: string
  )

  /** A row of the devices table; exhibitNumber is NULL until the second
      write of an intake. */
  datatype Device = Device(
    deviceType: string,
    customDeviceType: string,
    make: string,
    model: string,
    color: string,
    referenceNumber: string,
    description: string,
    serialNumber: string,
    imeiNumber: string,
    frontImage: Option<Bytes>,
    backImage: Option<Bytes>,
    pinPasswordPattern: string,
    exhibitNumber: Option<string>
  )

  /** A row of the requests table (its key, device_id, is the key of the
      map that holds it). */
  datatype Request = Request(
    unit: string,
    department: string,
    investigatorName: string,
    investigatorPhone: string,
    dateOfUse: DateTime,
    extractionStatus: Status,
    releaseContactName: Option<string>,
    releaseContactPhone: Option<string>,
    releaseDate: Option<DateTime>
  )

  /** One row of the devices-requests join the search page reads. */
  datatype JoinedRow = JoinedRow(deviceId: nat, device: Device, request: Request)

  /** The submit gate: reference number, device type and investigator
      name must all be non-empty. Nothing else is checked. A form passes
      exactly when the rows it is shaped into carry those three values,
      whatever the release clock reads. */
  predicate RequiredFieldsPresent(form: Form): (ok: bool)
    ensures ok <==> && ShapeDevice(form).referenceNumber != [] && ShapeDevice(form).deviceType != []
                    && forall stamp :: ShapeRequest(form, stamp).investigatorName != []
  {
    assert ShapeRequest(form, form.dateOfUse).investigatorName == form.investigatorName;
    form.referenceNumber != [] && form.deviceType != [] && form.investigatorName != []
  }

  /** A device row keeps a custom type only when its type is "Other". */
  predicate CustomTypeRule(d: Device)
  {
    d.customDeviceType != [] ==> d.deviceType == "Other"
  }

  /** A request row carries release details exactly when it is Released. */
  predicate ReleaseFieldsRule(r: Request)
  {
    && (r.releaseContactName.Some? <==> r.extractionStatus == Released)
    && (r.releaseContactPhone.Some? <==> r.extractionStatus == Released)
    && (r.releaseDate.Some? <==> r.extractionStatus == Released)
  }

  /** The device row the first INSERT writes: the custom type is forced to
      "" unless the type is "Other", and the exhibit number is not yet set;
      every other column is the widget value. */
  function ShapeDevice(form: Form): (d: Device)
    ensures CustomTypeRule(d)
    ensures d.exhibitNumber == None
    ensures form.deviceType == "Other" ==> d.customDeviceType == form.customDeviceTypeInput
    ensures d.deviceType == form.deviceType && d.referenceNumber == form.referenceNumber
    ensures d.make == form.make && d.model == form.model && d.color == form.color
    ensures d.description == form.description
    ensures d.serialNumber == form.serialNumber && d.imeiNumber == form.imeiNumber
    ensures d.frontImage == form.frontImage && d.backImage == form.backImage
    ensures d.pinPasswordPattern == form.pinPasswordPattern
  {
    Device(
      form.deviceType,
      if form.deviceType == "Other" then form.customDeviceTypeInput else "",
      form.make, form.model, form.color, form.referenceNumber, form.description,
      form.serialNumber, form.imeiNumber, form.frontImage, form.backImage,
      form.pinPasswordPattern, None)
  }

  /** The request row the last INSERT writes. The release contacts are
      the typed values (possibly empty) and the release date is the clock
      reading taken when the release inputs were shown, all only when the
      status is Released; otherwise all three are NULL. */
  function ShapeRequest(form: Form, releaseStamp: DateTime): (r: Request)
    ensures ReleaseFieldsRule(r)
    ensures r.extractionStatus == form.extractionStatus
    ensures r.unit == form.unit && r.department == form.department
    ensures r.investigatorName == form.investigatorName && r.investigatorPhone == form.investigatorPhone
    ensures r.dateOfUse == form.dateOfUse
    ensures r.extractionStatus == Released ==>
              && r.releaseContactName == Some(form.releaseContactNameInput)
              && r.releaseContactPhone == Some(form.releaseContactPhoneInput)
              && r.releaseDate == Some(releaseStamp)
  {
    var released := form.extractionStatus == Released;
    Request(
      form.unit, form.department, form.investigatorName, form.investigatorPhone,
      form.dateOfUse, form.extractionStatus,
      if released then Some(form.releaseContactNameInput) else None,
      if released then Some(form.releaseContactPhoneInput) else None,
      if released then Some(releaseStamp) else None)
  }

  /** Nothing validates the conditional fields: the gate does not look at
      them, a Released intake whose release contacts were left empty is
      stored with empty contacts, and an "Other" intake whose custom type
      was left empty is stored with an empty custom type, whatever its
      status. */
  lemma ShapingAcceptsEmptyConditionalFields(form: Form, releaseStamp: DateTime)
    ensures RequiredFieldsPresent(form) ==
            RequiredFieldsPresent(form.(customDeviceTypeInput := [], releaseContactNameInput := [],
                                        releaseContactPhoneInput := []))
    ensures form.extractionStatus == Released
            && form.releaseContactNameInput == [] && form.releaseContactPhoneInput == [] ==>
              && ShapeRequest(form, releaseStamp).releaseContactName == Some([])
              && ShapeRequest(form, releaseStamp).releaseContactPhone == Some([])
    ensures form.deviceType == "Other" && form.customDeviceTypeInput == []
            ==> ShapeDevice(form).customDeviceType == []
  {
  }
}
