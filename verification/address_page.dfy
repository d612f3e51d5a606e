/** The home-address form: which coordinates a submission sends, when it is
    refused before reaching the server, and how the editing handlers keep the
    coordinate sources apart. */
module AddressPage {
  import opened Common
  import Address

  /** A latitude/longitude pair as text. */
  datatype Coordinates = Coordinates(latitude: string, longitude: string)

  /** One entry of the geocoder's answer. */
  datatype GeocodingResult = GeocodingResult(displayName: string, lat: string, lon: string)

  datatype SubmitOutcome = MissingAddress | MissingLocation | Submitted

  /** The arguments of one `setAddress` call. */
  datatype SetAddressCall = SetAddressCall(address: string, latitude: string, longitude: string)

  /** The form's state. `location` is the browser position already turned
      into text; `isPending` is the `setAddress` mutation's flag, set from a
      call until its answer arrives; `calls` records every `setAddress` call
      the form makes. */
  class AddressForm {
    var address: string
    var location: Option<Coordinates>
    var isManualEntry: bool
    var manualLat: string
    var manualLong: string
    var selectedCoordinates: Option<Coordinates>
    var drawerOpen: bool
    var isPending: bool
    var calls: seq<SetAddressCall>

    constructor ()
      ensures address == "" && location.None? && !isManualEntry
      ensures manualLat == "" && manualLong == ""
      ensures selectedCoordinates.None? && !drawerOpen && !isPending && calls == []
    {
      address := "";
      location := None;
      isManualEntry := false;
      manualLat := "";
      manualLong := "";
      selectedCoordinates := None;
      drawerOpen := false;
      isPending := false;
      calls := [];
    }

    /** The coordinates a submission uses: a chosen search result first, then
        the manual fields when manual entry is on, then the browser position,
        and otherwise two empty strings. */
    function Chosen(): (c: Coordinates)
      reads this
      ensures selectedCoordinates.Some? ==> c == selectedCoordinates.value
      ensures selectedCoordinates.None? && isManualEntry ==> c == Coordinates(manualLat, manualLong)
      ensures selectedCoordinates.None? && !isManualEntry && location.Some? ==> c == location.value
      ensures selectedCoordinates.None? && !isManualEntry && location.None? ==> c == Coordinates("", "")
    {
      if selectedCoordinates.Some? then selectedCoordinates.value
      else if isManualEntry then Coordinates(manualLat, manualLong)
      else if location.Some? then location.value
      else Coordinates("", "")
    }

    /** The submit button is greyed out while a save is pending and whenever
        no coordinate source is available; a submission blocked for the
        second reason would have nothing to send. */
    function SubmitBlocked(): (blocked: bool)
      reads this
      ensures blocked <==> isPending || (selectedCoordinates.None? && location.None? && !isManualEntry)
      ensures blocked && !isPending ==> Chosen() == Coordinates("", "")
      ensures !blocked ==> !isPending
    {
      isPending || (selectedCoordinates.None? && location.None? && !isManualEntry)
    }

    /** `handleSubmit`: an empty address and an empty chosen coordinate stop
        the submission; otherwise exactly one `setAddress` call is made with
        the address and the chosen pair, and the save is pending. The handler
        itself does not look at the pending flag. */
    method HandleSubmit() returns (outcome: SubmitOutcome)
      modifies this`calls, this`isPending
      ensures isPending == (old(isPending) || outcome == Submitted)
      ensures address == "" <==> outcome == MissingAddress
      ensures outcome == Submitted <==>
        address != "" && Chosen().latitude != "" && Chosen().longitude != ""
      ensures outcome == Submitted ==>
        calls == old(calls) + [SetAddressCall(address, Chosen().latitude, Chosen().longitude)]
      ensures outcome != Submitted ==> calls == old(calls)
    {
      if address == "" {
        return MissingAddress;
      }
      var latitude, longitude;
      if selectedCoordinates.Some? {
        latitude := selectedCoordinates.value.latitude;
        longitude := selectedCoordinates.value.longitude;
      } else if isManualEntry {
        latitude := manualLat;
        longitude := manualLong;
      } else if location.Some? {
        latitude := location.value.latitude;
        longitude := location.value.longitude;
      } else {
        latitude := "";
        longitude := "";
      }
      if latitude == "" || longitude == "" {
        return MissingLocation;
      }
      calls := calls + [SetAddressCall(address, latitude, longitude)];
      isPending := true;
      outcome := Submitted;
    }

    /** The answer to a `setAddress` call arrives, success or error: the
        save is no longer pending, which alone re-enables the button when a
        coordinate source is available. */
    method SaveSettled()
      modifies this`isPending
      ensures !isPending
      ensures SubmitBlocked() <==> selectedCoordinates.None? && location.None? && !isManualEntry
    {
      isPending := false;
    }

    /** `handleAddressChange`: typing in the address drops the chosen search
        result, so the next submission falls back to the other sources. */
    method HandleAddressChange(value: string)
      modifies this`address, this`selectedCoordinates
      ensures address == value && selectedCoordinates.None?
      ensures Chosen() == if isManualEntry then Coordinates(manualLat, manualLong)
                          else location.GetOr(Coordinates("", ""))
    {
      address := value;
      if selectedCoordinates.Some? {
        selectedCoordinates := None;
      }
    }

    /** The manual-entry checkbox; checking it drops the chosen search
        result, so the manual fields decide the next submission. */
    method SetManualEntry(checked: bool)
      modifies this`isManualEntry, this`selectedCoordinates
      ensures isManualEntry == checked
      ensures selectedCoordinates == if checked then None else old(selectedCoordinates)
      ensures checked ==> Chosen() == Coordinates(manualLat, manualLong)
    {
      isManualEntry := checked;
      if checked {
        selectedCoordinates := None;
      }
    }

    /** Editing the manual latitude drops the chosen search result. */
    method EditManualLat(value: string)
      modifies this`manualLat, this`selectedCoordinates
      ensures manualLat == value && selectedCoordinates.None?
      ensures isManualEntry ==> Chosen().latitude == value
    {
      manualLat := value;
      selectedCoordinates := None;
    }

    /** Editing the manual longitude drops the chosen search result. */
    method EditManualLong(value: string)
      modifies this`manualLong, this`selectedCoordinates
      ensures manualLong == value && selectedCoordinates.None?
      ensures isManualEntry ==> Chosen().longitude == value
    {
      manualLong := value;
      selectedCoordinates := None;
    }

    /** `selectAddress`: the result's name becomes the address, its
        coordinates fill the manual fields and become the chosen pair, and the
        drawer closes. */
    method SelectAddress(result: GeocodingResult)
      modifies this`address, this`manualLat, this`manualLong, this`selectedCoordinates,
               this`drawerOpen
      ensures address == result.displayName
      ensures manualLat == result.lat && manualLong == result.lon
      ensures selectedCoordinates == Some(Coordinates(result.lat, result.lon))
      ensures !drawerOpen
      ensures Chosen() == Coordinates(result.lat, result.lon)
    {
      address := result.displayName;
      var lat := result.lat;
      var lon := result.lon;
      manualLat := lat;
      manualLong := lon;
      selectedCoordinates := Some(Coordinates(lat, lon));
      drawerOpen := false;
    }

    /** The registered row, once loaded, fills the form and becomes the chosen
        pair, so submitting unchanged sends it back as it was. */
    method LoadRegistered(row: Address.UserAddress)
      modifies this`address, this`manualLat, this`manualLong, this`selectedCoordinates
      ensures address == row.address
      ensures manualLat == row.latitude && manualLong == row.longitude
      ensures selectedCoordinates == Some(Coordinates(row.latitude, row.longitude))
      ensures Chosen() == Coordinates(row.latitude, row.longitude)
    {
      address := row.address;
      manualLat := row.latitude;
      manualLong := row.longitude;
      selectedCoordinates := Some(Coordinates(row.latitude, row.longitude));
    }

    /** The geolocation callbacks: a position, or `None` on error. */
    method SetLocation(position: Option<Coordinates>)
      modifies this`location
      ensures location == position
    {
      location := position;
    }
  }
}
