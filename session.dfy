/** The per-user edit session of the bot: the card being edited, the field chosen for the next
    typed value, and the photo paths received so far. Each handler of the bot is a method of the
    session. The sheet, the photo upload and the Bot API are passed in: the sheet as a Sheet
    object, the upload and the delivery of messages as functions. */
module EditSession {
  import opened Wrappers
  import opened Strings
  import opened Dict
  import opened Validators
  import opened Notification
  import opened Sheets
  import opened TelegramUsers

  /** The fields whose typed value is rewritten as a phone number. */
  const PHONE_FIELDS: seq<string> := ["phone_numbers", "Whatsapp"]

  /** Typed in any letter case, this shows the card instead of storing a value. */
  const SHOW_INFORMATION: string := "show information"

  const CHOOSE_ACTION: string := "Hi! Choose an action:"
  const NOT_AUTHORIZED: string := "Your ID is not authorized"

  /** A card: exactly the card columns, in order. */
  predicate IsCard(c: Fields) {
    Keys(c) == CARD_COLUMNS && DistinctKeys(c)
  }

  /** The value handle_new_value stores in a field for a typed text, or None when it rejects the
      text. Typed messages carry no photo, so the photos field rejects every one of them. */
  function StoredValue(field: string, text: string): Option<string> {
    if field == "name" then (if ValidName(text) then Some(text) else None)
    else if field == "type" then (if ValidType(text) then Some(text) else None)
    else if field == "photos" then None
    else if field == "google_map" then (if ValidGoogleMaps(text) then Some(text) else None)
    else if field in PHONE_FIELDS then Some(NormalizePhone(text))
    else Some(text)
  }

  /** A typed text is stored exactly when it passes the validator of its field, and it is
      stored as typed, except that phone fields store the normalised number, which a second
      normalisation leaves as it is. */
  lemma StoredValueMeaning(field: string, text: string)
    ensures StoredValue(field, text).Some? <==>
      field != "photos" &&
      (field == "name" ==> ValidName(text)) &&
      (field == "type" ==> ValidType(text)) &&
      (field == "google_map" ==> ValidGoogleMaps(text))
    ensures StoredValue(field, text).Some? && field !in PHONE_FIELDS ==>
      StoredValue(field, text).value == text
    ensures field in PHONE_FIELDS ==>
      StoredValue(field, text) == Some(NormalizePhone(text)) &&
      NormalizePhone(StoredValue(field, text).value) == StoredValue(field, text).value
  {
    NormalizePhoneIdempotent(text);
  }

  /** Whether handle_new_value changes the session: not the show command, a card and a field
      are selected, the card has the field, and the text is accepted for it. */
  predicate Edits(card: Option<Fields>, field: Option<string>, text: string) {
    LowerAscii(text) != SHOW_INFORMATION &&
    card.Some? && field.Some? && Has(card.value, field.value) &&
    StoredValue(field.value, text).Some?
  }

  /** What handle_save hands to the notifier as the old snapshot: the dict the write returned,
      or None for its False. */
  function SavedSnapshot(r: WriteResult): Option<Fields> {
    match r
    case Updated(prior) => Some(prior)
    case Inserted(written) => Some(written)
    case Failed => None
  }

  /** A failed write reaches the notifier as its False, and for any card the notifier then
      raises TypeError before sending anything. */
  lemma FailedWriteNotifies(card: Fields, manager: Manager, recipients: seq<int>,
                            deliver: (int, string) -> Response)
    requires IsCard(card)
    ensures Notify(card, SavedSnapshot(Failed), manager, recipients, deliver) == Err(TypeError)
  {
    assert |Keys(card)| == |CARD_COLUMNS|;
  }

  /** The menu command in capitals is still the menu command. */
  lemma ShowCommandIgnoresCase()
    ensures LowerAscii("Show Information") == SHOW_INFORMATION
  {
  }

  class Session {
    var card: Option<Fields>
    var fieldToUpdate: Option<string>
    var photosReceived: Option<seq<string>>

    ghost predicate Valid()
      reads this
    {
      card.Some? ==> IsCard(card.value)
    }

    /** A user's first message: an empty session. */
    constructor ()
      ensures Valid() && card.None? && fieldToUpdate.None? && photosReceived.None?
    {
      card := None;
      fieldToUpdate := None;
      photosReceived := None;
    }

    /** start: the menu for an allow-listed user, a refusal otherwise; the session is not touched. */
    method Start(userId: int, idList: seq<int>) returns (reply: string)
      ensures reply == if userId in idList then CHOOSE_ACTION else NOT_AUTHORIZED
    {
      var user := Auth(userId, idList);
      if user.Some? {
        reply := CHOOSE_ACTION;
      } else {
        reply := NOT_AUTHORIZED;
      }
    }

    /** handle_company_name: an invalid name does nothing; otherwise the name is looked up in
        the sheet and the card found or created becomes the session's card unless it has one. */
    method HandleCompanyName(text: string, sheet: Sheet)
      requires Valid()
      modifies this
      ensures Valid()
      ensures fieldToUpdate == old(fieldToUpdate) && photosReceived == old(photosReceived)
      ensures !ValidName(text) || SearchName(sheet.AsTable(), text).Err? || old(card).Some? ==>
        card == old(card)
      ensures ValidName(text) && SearchName(sheet.AsTable(), text).Ok? && old(card).None? ==>
        card == Some(SearchName(sheet.AsTable(), text).value.0)
    {
      if !ValidName(text) {
        return;
      }
      var found := SearchName(sheet.AsTable(), text);
      if found.Err? {
        return;
      }
      if card.None? {
        card := Some(found.value.0);
      }
    }

    /** button: a category sets the card's type and drops the selected field; any other button
        selects its field unless one is selected already. */
    method Button(data: string)
      requires Valid()
      modifies this
      ensures Valid() && photosReceived == old(photosReceived)
      ensures ValidType(data) && old(card).None? ==>
        card == old(card) && fieldToUpdate == old(fieldToUpdate)
      ensures ValidType(data) && old(card).Some? ==>
        card == Some(Put(old(card).value, "type", Some(data))) && fieldToUpdate.None?
      ensures !ValidType(data) ==>
        card == old(card) &&
        fieldToUpdate == if old(fieldToUpdate).Some? then old(fieldToUpdate) else Some(data)
    {
      if data in PLACE_TYPES {
        if card.None? {
          return;
        }
        card := Some(Put(card.value, "type", Some(data)));
        fieldToUpdate := None;
      } else if fieldToUpdate.None? {
        fieldToUpdate := Some(data);
      }
    }

    /** handle_new_value: an accepted text replaces the selected field of the card, and the
        selection is dropped; anything else leaves the session as it was. */
    method HandleNewValue(text: string)
      requires Valid()
      modifies this
      ensures Valid() && photosReceived == old(photosReceived)
      ensures !Edits(old(card), old(fieldToUpdate), text) ==>
        card == old(card) && fieldToUpdate == old(fieldToUpdate)
      ensures Edits(old(card), old(fieldToUpdate), text) ==>
        var f := old(fieldToUpdate).value;
        card == Some(Put(old(card).value, f, StoredValue(f, text))) && fieldToUpdate.None? &&
        forall k :: k != f ==> Get(card.value, k) == Get(old(card).value, k)
    {
      if LowerAscii(text) == SHOW_INFORMATION {
        return;
      }
      if card.None? || fieldToUpdate.None? {
        return;
      }
      var f := fieldToUpdate.value;
      if !Has(card.value, f) {
        return;
      }
      var stored := StoredValue(f, text);
      if stored.None? {
        return;
      }
      card := Some(Put(card.value, f, stored));
      fieldToUpdate := None;
    }

    /** photo_handler: the file path of the photo is appended to the received list. */
    method PhotoHandler(path: string)
      modifies this
      ensures card == old(card) && fieldToUpdate == old(fieldToUpdate)
      ensures photosReceived == Some(old(photosReceived).GetOr([]) + [path])
    {
      var received := if photosReceived.Some? then photosReceived.value else [];
      photosReceived := Some(received + [path]);
    }

    /** finish_photo: the received photos are uploaded into a folder named after the card; on
        success the list is emptied and the card's photos field holds the folder link. A
        missing card or photo list, or a failed upload, leaves the session as it was. */
    method FinishPhoto(upload: (Option<string>, seq<string>) -> Option<string>)
      requires Valid()
      modifies this
      ensures Valid() && fieldToUpdate == old(fieldToUpdate)
      ensures old(card).None? || old(photosReceived).None? ==>
        card == old(card) && photosReceived == old(photosReceived)
      ensures old(card).Some? && old(photosReceived).Some? ==>
        var link := upload(Lookup(old(card).value, "name"), old(photosReceived).value);
        if link.None? then card == old(card) && photosReceived == old(photosReceived)
        else card == Some(Put(old(card).value, "photos", Some(link.value))) && photosReceived == Some([])
    {
      if card.None? || photosReceived.None? {
        return;
      }
      var link := upload(Lookup(card.value, "name"), photosReceived.value);
      if link.None? {
        return;
      }
      photosReceived := Some([]);
      card := Some(Put(card.value, "photos", Some(link.value)));
    }

    /** handle_exit: the whole session is cleared. */
    method HandleExit()
      modifies this
      ensures Valid() && card.None? && fieldToUpdate.None? && photosReceived.None?
    {
      card := None;
      fieldToUpdate := None;
      photosReceived := None;
    }

    /** handle_save: without a card nothing happens. Otherwise the card is written to the
        sheet, the notifier is given the card and what the write returned, and the session is
        cleared; the write never returns None, so a failed write clears it too. The result is
        what the notifier returned or raised. */
    method HandleSave(sheet: Sheet, serviceUp: bool, manager: Manager, recipients: seq<int>,
                      deliver: (int, string) -> Response)
      returns (notified: Option<Result<seq<Outcome>, Failure>>)
      requires Valid() && sheet.Valid()
      modifies this, sheet
      ensures Valid() && sheet.Valid() && sheet.headers == old(sheet.headers)
      ensures old(card).None? ==>
        card == old(card) && fieldToUpdate == old(fieldToUpdate) &&
        photosReceived == old(photosReceived) && sheet.rows == old(sheet.rows) && notified.None?
      ensures old(card).Some? ==>
        var o := WriteOutcome(old(sheet.headers), old(sheet.rows), old(card).value, serviceUp);
        sheet.rows == o.1 &&
        notified == Some(Notify(old(card).value, SavedSnapshot(o.0), manager, recipients, deliver)) &&
        card.None? && fieldToUpdate.None? && photosReceived.None?
    {
      if card.None? {
        return None;
      }
      var saved := card.value;
      var written := sheet.Write(saved, serviceUp);
      var sent := SendNotification(saved, SavedSnapshot(written), manager, recipients, deliver);
      notified := Some(sent);
      card := None;
      fieldToUpdate := None;
      photosReceived := None;
    }

    /** handle_save as its documentation describes it: only a write that returned the sheet's
        values notifies and clears the session; a failed write leaves the session as it was, so
        the edits can be saved again. */
    method HandleSaveChecked(sheet: Sheet, serviceUp: bool, manager: Manager, recipients: seq<int>,
                             deliver: (int, string) -> Response)
      returns (notified: Option<Result<seq<Outcome>, Failure>>)
      requires Valid() && sheet.Valid()
      modifies this, sheet
      ensures Valid() && sheet.Valid() && sheet.headers == old(sheet.headers)
      ensures old(card).None? ==>
        card == old(card) && fieldToUpdate == old(fieldToUpdate) &&
        photosReceived == old(photosReceived) && sheet.rows == old(sheet.rows) && notified.None?
      ensures old(card).Some? ==>
        var o := WriteOutcome(old(sheet.headers), old(sheet.rows), old(card).value, serviceUp);
        sheet.rows == o.1 &&
        if o.0.Failed? then
          notified.None? && card == old(card) && fieldToUpdate == old(fieldToUpdate) &&
          photosReceived == old(photosReceived)
        else
          notified == Some(Notify(old(card).value, SavedSnapshot(o.0), manager, recipients, deliver)) &&
          card.None? && fieldToUpdate.None? && photosReceived.None?
    {
      if card.None? {
        return None;
      }
      var saved := card.value;
      var written := sheet.Write(saved, serviceUp);
      if written.Failed? {
        return None;
      }
      var sent := SendNotification(saved, SavedSnapshot(written), manager, recipients, deliver);
      notified := Some(sent);
      card := None;
      fieldToUpdate := None;
      photosReceived := None;
    }
  }
}
