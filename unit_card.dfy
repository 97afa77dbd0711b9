/** The stored place card of the database table and its export as a dict. */
module UnitCards {
  import opened Wrappers
  import opened Dict

  /** One row of the place table. Every text column defaults to "" and every flag to false;
      the key is assigned by the database. */
  datatype UnitCard = UnitCard(
    name: string,
    idKey: int,
    id: string,
    idPage: string,
    placeType: string,
    photo: string,
    location: string,
    googleMap: string,
    phoneNumber: string,
    whatsapp: string,
    hoursOfOperation: string,
    coordinates: string,
    dataManager: string,
    managerPhoneNumber: string,
    isNew: bool,
    isUpdated: bool)

  /** A card with every column at its default. */
  function DefaultCard(idKey: int): UnitCard {
    UnitCard("", idKey, "", "", "", "", "", "", "", "", "", "", "", "", false, false)
  }

  /** The keys to_dict can produce. */
  const EXPORT_KEYS: seq<string> := ["Name", "Type", "Photo Google Drive", "Google Map", "Phone Number",
    "WhatsApp Number", "Hours of Operation", "Owner / Manager", "Location"]

  lemma ExportKeysDistinct()
    ensures NoDuplicates(EXPORT_KEYS)
  {
  }

  /** Key k is in the dict exactly when `present`, and then maps to v. */
  predicate Entry(d: seq<(string, string)>, k: string, v: string, present: bool) {
    (Has(d, k) <==> present) && (present ==> Get(d, k) == Some(v))
  }

  /** The value to_dict exports under EXPORT_KEYS[i], and whether it exports one. */
  function ExportValue(c: UnitCard, i: nat): (string, bool)
    requires i < |EXPORT_KEYS|
  {
    if i == 0 then (c.name, c.name != "")
    else if i == 1 then (c.placeType, c.placeType != "")
    else if i == 2 then (c.photo, c.photo != "")
    else if i == 3 then (c.googleMap, c.googleMap != "")
    else if i == 4 then (c.phoneNumber, c.phoneNumber != "")
    else if i == 5 then (c.whatsapp, c.whatsapp != "")
    else if i == 6 then (c.hoursOfOperation, c.hoursOfOperation != "")
    else if i == 7 then (c.managerPhoneNumber, c.managerPhoneNumber != "")
    else (c.location, c.managerPhoneNumber != "")
  }

  /** The export keys among the first m whose attribute is set, in the order of EXPORT_KEYS. */
  function PresentKeys(c: UnitCard, m: nat): seq<string>
    requires m <= |EXPORT_KEYS|
  {
    if m == 0 then []
    else PresentKeys(c, m - 1) + (if ExportValue(c, m - 1).1 then [EXPORT_KEYS[m - 1]] else [])
  }

  /** The dict after the first m assignments of to_dict. */
  predicate Exports(d: seq<(string, string)>, c: UnitCard, m: nat)
    requires m <= |EXPORT_KEYS|
  {
    DistinctKeys(d) &&
    (forall i :: 0 <= i < |d| ==> d[i].0 in EXPORT_KEYS[..m]) &&
    forall i :: 0 <= i < m ==> Entry(d, EXPORT_KEYS[i], ExportValue(c, i).0, ExportValue(c, i).1)
  }

  /** One conditional assignment `d[keys[m]] = v` over a dict holding only keys[..m]: the key
      is settled, every other key is left as it was, and the dict still holds only keys[..m + 1]. */
  lemma AssignStep(d: seq<(string, string)>, d': seq<(string, string)>, keys: seq<string>, m: nat,
                   v: string, present: bool)
    requires NoDuplicates(keys) && m < |keys|
    requires DistinctKeys(d) && forall i :: 0 <= i < |d| ==> d[i].0 in keys[..m]
    requires d' == if present then Put(d, keys[m], v) else d
    ensures DistinctKeys(d') && forall i :: 0 <= i < |d'| ==> d'[i].0 in keys[..m + 1]
    ensures Entry(d', keys[m], v, present)
    ensures Keys(d') == Keys(d) + (if present then [keys[m]] else [])
    ensures forall j :: j != keys[m] ==> Get(d', j) == Get(d, j)
  {
    var k := keys[m];
    assert k !in keys[..m];
    forall i | 0 <= i < |d'|
      ensures d'[i].0 in keys[..m + 1]
    {
      var j := d'[i].0;
      assert Keys(d')[i] == j;
      assert keys[..m + 1] == keys[..m] + [k];
      if j != k {
        assert Get(d', j) == Get(d, j);
        assert d[IndexOf(d, j)].0 == j;
      }
    }
  }

  /** One conditional assignment of to_dict keeps the earlier entries and settles the next one. */
  lemma ExportStep(d: seq<(string, string)>, d': seq<(string, string)>, c: UnitCard, m: nat)
    requires m < |EXPORT_KEYS| && Exports(d, c, m)
    requires d' == if ExportValue(c, m).1 then Put(d, EXPORT_KEYS[m], ExportValue(c, m).0) else d
    ensures Exports(d', c, m + 1)
  {
    ExportKeysDistinct();
    var keys := EXPORT_KEYS;
    AssignStep(d, d', keys, m, ExportValue(c, m).0, ExportValue(c, m).1);
    forall i | 0 <= i < m
      ensures Entry(d', keys[i], ExportValue(c, i).0, ExportValue(c, i).1)
    {
      assert keys[i] != keys[m];
      assert Entry(d, keys[i], ExportValue(c, i).0, ExportValue(c, i).1);
    }
  }

  /** One `if` of to_dict: assign the m-th export key when its attribute is set. */
  method AssignIfSet(d: seq<(string, string)>, c: UnitCard, m: nat) returns (d': seq<(string, string)>)
    requires m < |EXPORT_KEYS| && Exports(d, c, m) && Keys(d) == PresentKeys(c, m)
    ensures Exports(d', c, m + 1) && Keys(d') == PresentKeys(c, m + 1)
  {
    var (v, present) := ExportValue(c, m);
    d' := d;
    if present {
      d' := Put(d, EXPORT_KEYS[m], v);
    }
    ExportStep(d, d', c, m);
    ExportKeysDistinct();
    AssignStep(d, d', EXPORT_KEYS, m, v, present);
  }

  /** to_dict: the nine conditional assignments, in the order of EXPORT_KEYS. */
  method ToDict(c: UnitCard) returns (r: seq<(string, string)>)
    ensures Exports(r, c, |EXPORT_KEYS|)
    ensures Keys(r) == PresentKeys(c, |EXPORT_KEYS|)
  {
    r := [];
    r := AssignIfSet(r, c, 0);
    r := AssignIfSet(r, c, 1);
    r := AssignIfSet(r, c, 2);
    r := AssignIfSet(r, c, 3);
    r := AssignIfSet(r, c, 4);
    r := AssignIfSet(r, c, 5);
    r := AssignIfSet(r, c, 6);
    r := AssignIfSet(r, c, 7);
    r := AssignIfSet(r, c, 8);
  }

  /** What the export holds: each attribute key exactly when the attribute is non-empty, with its
      value; "Location" exactly when the owner's phone is set, with the location even if that is
      empty; nothing else. A card at its defaults exports the empty dict. */
  lemma ExportsMeaning(d: seq<(string, string)>, c: UnitCard)
    requires Exports(d, c, |EXPORT_KEYS|)
    ensures Entry(d, "Name", c.name, c.name != "")
    ensures Entry(d, "Type", c.placeType, c.placeType != "")
    ensures Entry(d, "Photo Google Drive", c.photo, c.photo != "")
    ensures Entry(d, "Google Map", c.googleMap, c.googleMap != "")
    ensures Entry(d, "Phone Number", c.phoneNumber, c.phoneNumber != "")
    ensures Entry(d, "WhatsApp Number", c.whatsapp, c.whatsapp != "")
    ensures Entry(d, "Hours of Operation", c.hoursOfOperation, c.hoursOfOperation != "")
    ensures Entry(d, "Owner / Manager", c.managerPhoneNumber, c.managerPhoneNumber != "")
    ensures Entry(d, "Location", c.location, c.managerPhoneNumber != "")
    ensures forall k :: Has(d, k) ==> k in EXPORT_KEYS
    ensures c == DefaultCard(c.idKey) ==> d == []
  {
    assert EXPORT_KEYS[..|EXPORT_KEYS|] == EXPORT_KEYS;
    var n := |EXPORT_KEYS|;
    assert Entry(d, EXPORT_KEYS[0], ExportValue(c, 0).0, ExportValue(c, 0).1);
    assert Entry(d, EXPORT_KEYS[1], ExportValue(c, 1).0, ExportValue(c, 1).1);
    assert Entry(d, EXPORT_KEYS[2], ExportValue(c, 2).0, ExportValue(c, 2).1);
    assert Entry(d, EXPORT_KEYS[3], ExportValue(c, 3).0, ExportValue(c, 3).1);
    assert Entry(d, EXPORT_KEYS[4], ExportValue(c, 4).0, ExportValue(c, 4).1);
    assert Entry(d, EXPORT_KEYS[5], ExportValue(c, 5).0, ExportValue(c, 5).1);
    assert Entry(d, EXPORT_KEYS[6], ExportValue(c, 6).0, ExportValue(c, 6).1);
    assert Entry(d, EXPORT_KEYS[7], ExportValue(c, 7).0, ExportValue(c, 7).1);
    assert Entry(d, EXPORT_KEYS[8], ExportValue(c, 8).0, ExportValue(c, 8).1);
    forall k | Has(d, k)
      ensures k in EXPORT_KEYS
    {
      assert d[IndexOf(d, k)].0 == k;
    }
    forall i | 0 <= i < |d|
      ensures exists j :: 0 <= j < n && EXPORT_KEYS[j] == d[i].0 && ExportValue(c, j).1
    {
      assert Keys(d)[i] == d[i].0;
      var j :| 0 <= j < n && EXPORT_KEYS[..n][j] == d[i].0;
      assert Entry(d, EXPORT_KEYS[j], ExportValue(c, j).0, ExportValue(c, j).1);
    }
    if c == DefaultCard(c.idKey) {
      assert forall j :: 0 <= j < n ==> !ExportValue(c, j).1;
    }
  }
}
