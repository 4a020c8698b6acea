/** The report form of the mobile client: acquiring the location (with the
    campus check and the address text), and the submit handler's guard
    chain, which ends in the request to create the post. */
module CreatePostScreen {
  import opened Wrappers
  import opened Text
  import opened Geofence

  /** A reverse-geocoding result; a missing component is the empty string. */
  datatype Geocode = Geocode(name: string, street: string, district: string, city: string,
                             region: string, postalCode: string, country: string)

  function AddressParts(g: Geocode): seq<string> {
    [g.name, g.street, g.district, g.city, g.region, g.postalCode, g.country]
  }

  /** `filter(Boolean)` on strings. */
  function NonEmpty(parts: seq<string>): (r: seq<string>)
    ensures forall i :: 0 <= i < |r| ==> r[i] != ""
    ensures forall x :: x in r <==> x in parts && x != ""
  {
    if parts == [] then []
    else if parts[0] == "" then NonEmpty(parts[1..])
    else [parts[0]] + NonEmpty(parts[1..])
  }

  /** The address shown and sent with the report. */
  function FormatAddress(g: Option<Geocode>): string {
    match g
    case None => "Address not available"
    case Some(geo) => Join(NonEmpty(AddressParts(geo)), ", ")
  }

  lemma {:induction false} JoinNonEmpty(parts: seq<string>, sep: string)
    requires forall i :: 0 <= i < |parts| ==> parts[i] != ""
    ensures Join(parts, sep) == "" <==> parts == []
  {
    if |parts| > 1 {
      JoinNonEmpty(parts[1..], sep);
    }
  }

  lemma {:induction false} JoinCommaCount(parts: seq<string>)
    requires parts != []
    requires forall i :: 0 <= i < |parts| ==> ',' !in parts[i]
    ensures CountChar(Join(parts, ", "), ',') == |parts| - 1
  {
    CountCharAbsent(parts[0], ',');
    if |parts| > 1 {
      JoinCommaCount(parts[1..]);
      CountCharAppend(parts[0], ", ", ',');
      CountCharAppend(parts[0] + ", ", Join(parts[1..], ", "), ',');
      assert CountChar(", ", ',') == 1;
    }
  }

  /** Without a geocoding result the address is a fixed text; with one it is
      empty exactly when every component is, and when no component holds a
      comma, splitting it on commas gives back one piece per non-empty
      component. */
  lemma {:induction false} FormatAddressShape(g: Option<Geocode>)
    ensures g.None? ==> FormatAddress(g) == "Address not available"
    ensures g.Some? ==> (FormatAddress(g) == "" <==> forall x :: x in AddressParts(g.value) ==> x == "")
    ensures g.Some? && (forall x :: x in AddressParts(g.value) ==> ',' !in x) && FormatAddress(g) != "" ==>
      |Split(FormatAddress(g), ',')| == |NonEmpty(AddressParts(g.value))|
  {
    if g.Some? {
      var parts := NonEmpty(AddressParts(g.value));
      JoinNonEmpty(parts, ", ");
      if parts == [] {
        forall x | x in AddressParts(g.value)
          ensures x == ""
        {
        }
      } else {
        if forall x :: x in AddressParts(g.value) ==> ',' !in x {
          assert forall i :: 0 <= i < |parts| ==> parts[i] in parts;
          JoinCommaCount(parts);
          SplitCount(FormatAddress(g), ',');
        }
      }
    }
  }

  datatype PickedLocation = PickedLocation(latitude: real, longitude: real, address: string)

  datatype LocationOutcome = PermissionDenied | OffCampus | Located(location: PickedLocation)

  function PointOf(l: PickedLocation): Point {
    Point(l.latitude, l.longitude)
  }

  /** The location button: refused without permission, refused off campus,
      otherwise the coordinates and the address text. */
  function GetLocation(granted: bool, here: Point, geocode: Option<Geocode>): LocationOutcome {
    if !granted then PermissionDenied
    else if !Inside(here, CampusPolygon) then OffCampus
    else Located(PickedLocation(here.latitude, here.longitude, FormatAddress(geocode)))
  }

  /** Splitting the tag field: each comma-separated piece, trimmed. */
  function SplitTags(tags: string): (r: seq<string>)
    ensures |r| == |Split(tags, ',')|
    ensures forall i :: 0 <= i < |r| ==> r[i] == Trim(Split(tags, ',')[i])
  {
    TrimAll(Split(tags, ','))
  }

  function TrimAll(parts: seq<string>): (r: seq<string>)
    ensures |r| == |parts|
    ensures forall i :: 0 <= i < |r| ==> r[i] == Trim(parts[i])
  {
    if parts == [] then [] else [Trim(parts[0])] + TrimAll(parts[1..])
  }

  /** There is one tag per comma plus one, an empty field gives one empty
      tag, and no tag holds a comma or starts or ends with white space. */
  lemma {:induction false} SplitTagsShape(tags: string)
    ensures |SplitTags(tags)| == CountChar(tags, ',') + 1
    ensures SplitTags("") == [""]
    ensures forall i :: 0 <= i < |SplitTags(tags)| ==>
      var t := SplitTags(tags)[i];
      ',' !in t && (t == [] || (!IsSpace(t[0]) && !IsSpace(t[|t| - 1])))
  {
    SplitCount(tags, ',');
    SplitTagsEmpty();
    SplitTagsPieces(tags);
  }

  lemma {:induction false} SplitTagsPieces(tags: string)
    ensures forall i :: 0 <= i < |SplitTags(tags)| ==>
      var t := SplitTags(tags)[i];
      ',' !in t && (t == [] || (!IsSpace(t[0]) && !IsSpace(t[|t| - 1])))
  {
    forall i | 0 <= i < |SplitTags(tags)|
      ensures var t := SplitTags(tags)[i];
        ',' !in t && (t == [] || (!IsSpace(t[0]) && !IsSpace(t[|t| - 1])))
    {
      PieceFree(tags, i);
      TrimmedPiece(Split(tags, ',')[i]);
    }
  }

  lemma {:induction false} PieceFree(tags: string, i: nat)
    requires i < |Split(tags, ',')|
    ensures ',' !in Split(tags, ',')[i]
  {
    SplitPiecesFree(tags, ',');
  }

  lemma {:induction false} SplitTagsEmpty()
    ensures SplitTags("") == [""]
  {
    assert Split("", ',') == [""];
    assert Trim("") == "";
  }

  /** A trimmed piece without a comma has none, and no white space at
      either end. */
  lemma {:induction false} TrimmedPiece(piece: string)
    requires ',' !in piece
    ensures var t := Trim(piece);
      ',' !in t && (t == [] || (!IsSpace(t[0]) && !IsSpace(t[|t| - 1])))
  {
    TrimEnds(piece);
    TrimIsPiece(piece);
  }

  lemma {:induction false} TrimIsPiece(s: string)
    ensures forall c :: c in Trim(s) ==> c in s
  {
    var e := TrimEnd(s);
    assert e == s[..|e|];
    assert Trim(s) == e[|e| - |Trim(s)|..];
  }

  datatype PostData = PostData(title: string, description: string, image: string,
                               location: PickedLocation, category: string, tags: seq<string>)

  datatype SubmitOutcome = Rejected(message: string) | Send(data: PostData)

  const NeedLocation := "Please add your location first"
  const NotOnCampus := "You must be within the college premises to submit a report"
  const MissingFields := "Please fill in all required fields"

  /** `handleSubmit`: location first, then the campus check, then title and
      description; the image is not checked. */
  function HandleSubmit(location: Option<PickedLocation>, title: string, description: string,
                        image: string, category: string, tags: string): SubmitOutcome
  {
    if location.None? then Rejected(NeedLocation)
    else if !Inside(PointOf(location.value), CampusPolygon) then Rejected(NotOnCampus)
    else if title == "" || description == "" then Rejected(MissingFields)
    else Send(PostData(title, description, image, location.value, category, SplitTags(tags)))
  }

  /** Each rejection in its place in the chain, a request only when every
      check passes, and the image never consulted. */
  lemma {:induction false} HandleSubmitOrder(location: Option<PickedLocation>, title: string, description: string,
                          image: string, other: string, category: string, tags: string)
    ensures var r := HandleSubmit(location, title, description, image, category, tags);
      && (location.None? ==> r == Rejected(NeedLocation))
      && (location.Some? && !Inside(PointOf(location.value), CampusPolygon) ==> r == Rejected(NotOnCampus))
      && ((location.Some? && Inside(PointOf(location.value), CampusPolygon) && (title == "" || description == ""))
          ==> r == Rejected(MissingFields))
      && (r.Send? <==> location.Some? && Inside(PointOf(location.value), CampusPolygon) && title != "" && description != "")
      && (r.Send? ==>
            && r.data.location == location.value && r.data.tags == SplitTags(tags) && r.data.image == image
            && r.data.title == title && r.data.description == description && r.data.category == category)
      && (r.Send? <==> HandleSubmit(location, title, description, other, category, tags).Send?)
  {
  }

  /** A location obtained through the button always passes the submit
      handler's campus check. */
  lemma {:induction false} LocatedIsOnCampus(granted: bool, here: Point, geocode: Option<Geocode>, title: string,
                          description: string, image: string, category: string, tags: string)
    requires GetLocation(granted, here, geocode).Located?
    ensures var loc := GetLocation(granted, here, geocode).location;
      && Inside(PointOf(loc), CampusPolygon)
      && HandleSubmit(Some(loc), title, description, image, category, tags) != Rejected(NotOnCampus)
  {
  }
}
