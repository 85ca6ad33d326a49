/**
 * The listing form (CreateAuction.js): field edits, the image list with its
 * five-image limit, the three checks made before sending, and the multipart
 * body that is sent.
 *
 * The form is a string-keyed record with a nested location record, as in
 * the component's state. `parseFloat` and `new Date` are parameters:
 * `num(s)` is the amount a text denotes (None for NaN) and `date(s)` the
 * instant (None for an invalid date). Every comparison with NaN or an
 * invalid date is false, as in JavaScript.
 */
module AuctionForm {
  import opened Wrappers
  import opened Records

  type Record = map<string, string>
  type Image = string
  type NumberReader = string -> Option<Money>
  type DateReader = string -> Option<Time>

  datatype Form = Form(fields: Record, location: Record)

  const MaxImages := 5

  function Get(r: Record, k: string): string {
    if k in r then r[k] else ""
  }

  const LocationPrefix := "location."

  /** The text after the first dot up to the next one: `name.split('.')[1]`. */
  function UpToDot(s: string): (r: string)
    ensures |r| <= |s| && r == s[..|r|] && '.' !in r
  {
    if s == [] || s[0] == '.' then [] else [s[0]] + UpToDot(s[1..])
  }

  /** handleChange: a `location.` name edits the nested record, any other name the top level. */
  function Change(f: Form, name: string, value: string): Form {
    if |name| >= |LocationPrefix| && name[..|LocationPrefix|] == LocationPrefix then
      f.(location := f.location[UpToDot(name[|LocationPrefix|..]) := value])
    else f.(fields := f.fields[name := value])
  }

  datatype ImageError = TooManyImages

  /** handleImageChange: a batch that would make more than five is refused whole. */
  function AddImages(images: seq<Image>, files: seq<Image>): Result<seq<Image>, ImageError> {
    if |files| + |images| > MaxImages then Err(TooManyImages) else Ok(images + files)
  }

  /** removeImage: keep every image whose position differs from `index`. */
  function RemoveImage(images: seq<Image>, index: int): (r: seq<Image>)
    ensures |r| <= |images|
  {
    if images == [] then []
    else
      var n := |images| - 1;
      RemoveImage(images[..n], index) + (if n == index then [] else [images[n]])
  }

  datatype FormError = StartingBidNotPositive | EndTimeNotFuture | BuyNowNotAboveStart

  /** `x <= y` on JavaScript numbers, false when either is NaN. */
  predicate AtMost(x: Option<int>, y: Option<int>) {
    x.Some? && y.Some? && x.value <= y.value
  }

  /** The checks of handleSubmit, in order; the first that fails is reported. */
  function Check(f: Form, now: Time, num: NumberReader, date: DateReader): Option<FormError> {
    if AtMost(num(Get(f.fields, "startingBid")), Some(0)) then Some(StartingBidNotPositive)
    else if AtMost(date(Get(f.fields, "endTime")), Some(now)) then Some(EndTimeNotFuture)
    else if Get(f.fields, "buyNowPrice") != "" && AtMost(num(Get(f.fields, "buyNowPrice")), num(Get(f.fields, "startingBid")))
    then Some(BuyNowNotAboveStart)
    else None
  }

  datatype Part = Text(name: string, value: string) | Place(place: Record) | File(image: Image)

  function Files(images: seq<Image>): (r: seq<Part>)
    ensures |r| == |images|
    ensures forall i :: 0 <= i < |r| ==> r[i] == File(images[i])
  {
    if images == [] then [] else [File(images[0])] + Files(images[1..])
  }

  /** One text part per key, each carrying that field's value. */
  function Texts(f: Form, ks: seq<string>): (r: seq<Part>)
    ensures |r| == |ks|
    ensures forall i :: 0 <= i < |r| ==> r[i] == Text(ks[i], Get(f.fields, ks[i]))
  {
    if ks == [] then [] else [Text(ks[0], Get(f.fields, ks[0]))] + Texts(f, ks[1..])
  }

  /** A key list holding `k` exactly when that field is filled in. */
  function IfFilled(f: Form, k: string): seq<string> {
    if Get(f.fields, k) != "" then [k] else []
  }

  const LeadingKeys := ["title", "description", "category", "condition", "startingBid", "minimumIncrement"]
  const MiddleKeys := ["endTime", "shippingCost"]

  /** The multipart body, in append order; reserve and buy-now prices only when filled in. */
  function Body(f: Form, images: seq<Image>): seq<Part> {
    Texts(f, LeadingKeys) + Texts(f, IfFilled(f, "reservePrice")) + Texts(f, MiddleKeys) + [Place(f.location)]
    + Texts(f, IfFilled(f, "buyNowPrice")) + Files(images)
  }

  /** handleSubmit: the body that is sent, or the check that refused. */
  function Submit(f: Form, images: seq<Image>, now: Time, num: NumberReader, date: DateReader): Result<seq<Part>, FormError> {
    match Check(f, now, num, date)
    case Some(e) => Err(e)
    case None => Ok(Body(f, images))
  }

  /** The names of the text parts of a body, in order. */
  function Names(b: seq<Part>): seq<string> {
    if b == [] then [] else (if b[0].Text? then [b[0].name] else []) + Names(b[1..])
  }

  // ----------------------------------------------------------------- lemmas

  /**
   * The checks in order: a starting bid that reads as at most zero, then an
   * end time that reads as no later than now, then a filled-in buy-now
   * price no greater than the starting bid. The first failure is the one
   * reported and nothing is sent; when all pass the body is sent.
   */
  lemma {:induction false} SubmitChain(f: Form, images: seq<Image>, now: Time, num: NumberReader, date: DateReader)
    ensures var start := num(Get(f.fields, "startingBid"));
      var end := date(Get(f.fields, "endTime"));
      var buy := Get(f.fields, "buyNowPrice");
      var r := Submit(f, images, now, num, date);
      && (start.Some? && start.value <= 0 ==> r == Err(StartingBidNotPositive))
      && (!(start.Some? && start.value <= 0) && end.Some? && end.value <= now ==> r == Err(EndTimeNotFuture))
      && ((!(start.Some? && start.value <= 0) && !(end.Some? && end.value <= now)
           && buy != "" && num(buy).Some? && start.Some? && num(buy).value <= start.value) ==> r == Err(BuyNowNotAboveStart))
      && (r.Ok? <==> !(start.Some? && start.value <= 0) && !(end.Some? && end.value <= now)
                     && !(buy != "" && num(buy).Some? && start.Some? && num(buy).value <= start.value))
      && (r.Ok? ==> r.value == Body(f, images))
  {
  }

  /**
   * The checks compare parsed values, so text that parses to NaN or to an
   * invalid date passes all three: an empty form is not refused here (the
   * inputs' own `required` markers are what stop it in a browser).
   */
  lemma {:induction false} UnparsableInputPasses(images: seq<Image>, now: Time)
    ensures var num: NumberReader := (s: string) => if s == "" then None else Some(1);
      var date: DateReader := (s: string) => if s == "" then None else Some(now + 1);
      Submit(Form(map[], map[]), images, now, num, date).Ok?
  {
  }

  lemma {:induction false} NamesAppend(a: seq<Part>, b: seq<Part>)
    ensures Names(a + b) == Names(a) + Names(b)
    decreases |a|
  {
    if a == [] {
      assert a + b == b;
    } else {
      assert (a + b)[1..] == a[1..] + b;
      NamesAppend(a[1..], b);
    }
  }

  lemma {:induction false} NamesOfFiles(images: seq<Image>)
    ensures Names(Files(images)) == []
    decreases |images|
  {
    if images != [] {
      NamesOfFiles(images[1..]);
    }
  }

  lemma {:induction false} NamesOfTexts(f: Form, ks: seq<string>)
    ensures Names(Texts(f, ks)) == ks
    decreases |ks|
  {
    if ks != [] {
      NamesOfTexts(f, ks[1..]);
      assert Texts(f, ks)[1..] == Texts(f, ks[1..]);
    }
  }

  /**
   * The body's text parts, in order: the always-sent fields, with
   * `reservePrice` and `buyNowPrice` present exactly when filled in.
   */
  lemma {:induction false} BodyNames(f: Form, images: seq<Image>)
    ensures Names(Body(f, images)) == LeadingKeys + IfFilled(f, "reservePrice") + MiddleKeys + IfFilled(f, "buyNowPrice")
  {
    var p1 := Texts(f, LeadingKeys);
    var p2 := Texts(f, IfFilled(f, "reservePrice"));
    var p3 := Texts(f, MiddleKeys);
    var p4 := Texts(f, IfFilled(f, "buyNowPrice"));
    var p5 := Files(images);
    assert Body(f, images) == p1 + p2 + p3 + [Place(f.location)] + p4 + p5;
    NamesAppend(p1 + p2 + p3 + [Place(f.location)] + p4, p5);
    NamesAppend(p1 + p2 + p3 + [Place(f.location)], p4);
    NamesAppend(p1 + p2 + p3, [Place(f.location)]);
    NamesAppend(p1 + p2, p3);
    NamesAppend(p1, p2);
    NamesOfTexts(f, LeadingKeys);
    NamesOfTexts(f, IfFilled(f, "reservePrice"));
    NamesOfTexts(f, MiddleKeys);
    NamesOfTexts(f, IfFilled(f, "buyNowPrice"));
    NamesOfFiles(images);
  }

  /** The images end the body, in list order, and every text part carries its field's value. */
  lemma {:induction false} BodyParts(f: Form, images: seq<Image>)
    ensures var b := Body(f, images);
      && b[|b| - |images|..] == Files(images)
      && (forall i :: 0 <= i < |b| && b[i].Text? ==> b[i].value == Get(f.fields, b[i].name))
  {
    var front := Texts(f, LeadingKeys) + Texts(f, IfFilled(f, "reservePrice")) + Texts(f, MiddleKeys)
                 + [Place(f.location)] + Texts(f, IfFilled(f, "buyNowPrice"));
    assert Body(f, images) == front + Files(images);
    assert (front + Files(images))[|front|..] == Files(images);
  }

  /**
   * A batch is refused whole when it would make more than five images,
   * leaving the list unchanged; otherwise it is appended in order.
   */
  lemma {:induction false} AddImagesSpec(images: seq<Image>, files: seq<Image>)
    ensures AddImages(images, files).Err? <==> |images| + |files| > MaxImages
    ensures AddImages(images, files).Ok? ==>
      AddImages(images, files).value == images + files && |AddImages(images, files).value| <= MaxImages
  {
  }

  /** removeImage drops exactly the image at `index`; any other index leaves the list as it was. */
  lemma {:induction false} RemoveImageSpec(images: seq<Image>, index: int)
    ensures 0 <= index < |images| ==> RemoveImage(images, index) == images[..index] + images[index + 1..]
    ensures !(0 <= index < |images|) ==> RemoveImage(images, index) == images
    decreases |images|
  {
    if images != [] {
      var n := |images| - 1;
      RemoveImageSpec(images[..n], index);
      assert images[..n] + [images[n]] == images;
      if 0 <= index < n {
        assert images[..n][..index] == images[..index];
        assert images[..n][index + 1..] + [images[n]] == images[index + 1..];
      } else if index == n {
        assert images[..index] + images[index + 1..] == images[..n];
      }
    }
  }

  /** The image list never holds more than five: both edits keep that bound. */
  lemma {:induction false} ImageBound(images: seq<Image>, files: seq<Image>, index: int)
    requires |images| <= MaxImages
    ensures AddImages(images, files).Ok? ==> |AddImages(images, files).value| <= MaxImages
    ensures |RemoveImage(images, index)| <= MaxImages
  {
  }

  /**
   * A `location.` edit changes only that key of the nested record; any
   * other edit changes only that top-level key.
   */
  lemma {:induction false} ChangeSpec(f: Form, name: string, value: string)
    ensures var g := Change(f, name, value);
      && (|name| >= 9 && name[..9] == "location." ==>
            g.fields == f.fields && g.location == f.location[UpToDot(name[9..]) := value])
      && (!(|name| >= 9 && name[..9] == "location.") ==>
            g.location == f.location && g.fields == f.fields[name := value])
  {
  }

  /** A key without a dot is read back whole. */
  lemma {:induction false} UpToDotWhole(k: string)
    requires '.' !in k
    ensures UpToDot(k) == k
    decreases |k|
  {
    if k != [] {
      assert k == [k[0]] + k[1..];
      UpToDotWhole(k[1..]);
    }
  }

  /** For a rendered input `location.<key>` the edit lands on `<key>` of the nested record. */
  lemma {:induction false} LocationEdit(f: Form, key: string, value: string)
    requires '.' !in key
    ensures Change(f, LocationPrefix + key, value) == f.(location := f.location[key := value])
  {
    var name := LocationPrefix + key;
    assert name[..|LocationPrefix|] == LocationPrefix;
    assert name[|LocationPrefix|..] == key;
    UpToDotWhole(key);
  }
}
