/** The product detail page: finding the routed product in the catalogue,
    the image and size pickers, the units input and its out-of-stock rule,
    the add-to-cart guard and the review-submission guard. The catalogue,
    the route id, the stored token and the backend's replies are inputs. */
module ProductPage {
  import opened Js

  datatype Review = Review(username: string, text: string, createdAt: string)

  /** A catalogue entry. `sizes` is the record's `quantity` list (the weight
      or size labels); `reviews` may be missing from the record. */
  datatype Product = Product(
    id: string,
    name: string,
    images: seq<string>,
    sizes: seq<string>,
    stock: int,
    reviews: Maybe<seq<Review>>)

  /** The page's local state. `product` is `Undefined` while `productData`
      still holds its initial `false`; `image` is `Undefined` after loading a
      product with no images (`image[0]` of an empty array). */
  datatype View = View(
    product: Maybe<Product>,
    image: Maybe<string>,
    size: string,
    quantity: int,
    reviewText: string)

  const Initial := View(Undefined, Defined(""), "", 1, "")

  const SelectSizeMessage := "Please select a weight/size before adding to cart."
  const UnitsMessage := "Please enter a valid number of units."
  const NotLoadedMessage := "Product data not loaded yet"
  const EmptyReviewMessage := "Review cannot be empty"

  // ---------------------------------------------------------------------
  // Lookup

  /** The index of the last product whose id is `id`. The page walks the
      whole list with `map`, setting the state at every match, so the last
      match is the one that stays. */
  function LastMatch(products: seq<Product>, id: string): (r: Maybe<nat>)
    ensures r.Defined? ==> r.value < |products| && products[r.value].id == id
    ensures r.Defined? ==> forall j :: r.value < j < |products| ==> products[j].id != id
    ensures r.Undefined? ==> forall j :: 0 <= j < |products| ==> products[j].id != id
  {
    if |products| == 0 then Undefined
    else if products[|products| - 1].id == id then Defined(|products| - 1)
    else LastMatch(products[..|products| - 1], id)
  }

  /** The walk itself, front to back, overwriting the selection at each
      match; it lands on the same index as `LastMatch`. */
  method FetchProductData(products: seq<Product>, id: string) returns (found: Maybe<nat>)
    ensures found == LastMatch(products, id)
    ensures found.Defined? <==> exists j :: 0 <= j < |products| && products[j].id == id
  {
    found := Undefined;
    var i := 0;
    while i < |products|
      invariant 0 <= i <= |products|
      invariant found.Defined? ==> found.value < i && products[found.value].id == id
      invariant found.Defined? ==> forall j :: found.value < j < i ==> products[j].id != id
      invariant found.Undefined? ==> forall j :: 0 <= j < i ==> products[j].id != id
    {
      if products[i].id == id {
        found := Defined(i);
      }
      i := i + 1;
    }
    LastMatchUnique(products, id, found);
  }

  /** Only one index is the last match. */
  lemma LastMatchUnique(products: seq<Product>, id: string, k: Maybe<nat>)
    requires k.Defined? ==> k.value < |products| && products[k.value].id == id
    requires k.Defined? ==> forall j :: k.value < j < |products| ==> products[j].id != id
    requires k.Undefined? ==> forall j :: 0 <= j < |products| ==> products[j].id != id
    ensures k == LastMatch(products, id)
  {
  }

  /** `item.image[0]`. */
  function FirstImage(images: seq<string>): Maybe<string>
  {
    if |images| > 0 then Defined(images[0]) else Undefined
  }

  /** Looking up the routed product. A match replaces the product and shows
      its first image, and a product out of stock forces the units to 0 (the
      effect on `productData`); no match leaves the page exactly as it was,
      which on first load is the empty placeholder. */
  function Load(v: View, products: seq<Product>, id: string): (w: View)
    ensures LastMatch(products, id).Undefined? ==> w == v
    ensures LastMatch(products, id).Defined? ==>
              var p := products[LastMatch(products, id).value];
              && w.product == Defined(p)
              && w.image == FirstImage(p.images)
              && (p.stock <= 0 ==> w.quantity == 0)
              && (p.stock > 0 ==> w.quantity == v.quantity)
    ensures w.size == v.size && w.reviewText == v.reviewText
  {
    match LastMatch(products, id)
    case Undefined => v
    case Defined(k) =>
      var p := products[k];
      v.(product := Defined(p), image := FirstImage(p.images),
         quantity := if p.stock <= 0 then 0 else v.quantity)
  }

  // ---------------------------------------------------------------------
  // Rendering facts

  /** The units the input displays. */
  function DisplayedQuantity(p: Product, quantity: int): int
  {
    if p.stock > 0 then quantity else 0
  }

  /** Both the units input and the add-to-cart button carry this `disabled`. */
  predicate Disabled(p: Product)
  {
    p.stock <= 0
  }

  /** `reviews?.length || 0`, shown in the rating line and the tab title. */
  function ReviewCount(p: Product): nat
  {
    match p.reviews
    case Undefined => 0
    case Defined(rs) => |rs|
  }

  /** Whether the list shows "No reviews yet" instead of review cards. */
  predicate ShowsNoReviewsYet(p: Product)
  {
    !(p.reviews.Defined? && |p.reviews.value| > 0)
  }

  /** The count reads 0 exactly when the list says there are no reviews. */
  lemma ZeroCountIffNoReviewsYet(p: Product)
    ensures ReviewCount(p) == 0 <==> ShowsNoReviewsYet(p)
  {
  }

  // ---------------------------------------------------------------------
  // Add to cart

  datatype CartAction =
    | NotClickable
    | Refused(message: string)
    | AddAndNavigate(productId: string, size: string, units: int, target: string)

  /** Clicking "ADD TO CART": nothing without a product or while disabled;
      otherwise a refusal toast unless a size is chosen and at least one unit
      is asked for; then `addToCart(id, size, units)` and a move to /cart.
      Stock is no upper bound: the units go through as entered. */
  function ClickAddToCart(v: View): (a: CartAction)
    ensures a.AddAndNavigate? <==>
              v.product.Defined? && !Disabled(v.product.value) && v.size != "" && v.quantity >= 1
    ensures a.AddAndNavigate? ==>
              a == AddAndNavigate(v.product.value.id, v.size, v.quantity, "/cart")
    ensures a.NotClickable? <==> v.product.Undefined? || Disabled(v.product.value)
    ensures a.Refused? && v.size == "" ==> a.message == SelectSizeMessage
    ensures a.Refused? && v.size != "" ==> a.message == UnitsMessage
  {
    if v.product.Undefined? || Disabled(v.product.value) then NotClickable
    else if v.size == "" then Refused(SelectSizeMessage)
    else if v.quantity < 1 then Refused(UnitsMessage)
    else AddAndNavigate(v.product.value.id, v.size, v.quantity, "/cart")
  }

  // ---------------------------------------------------------------------
  // Reviews

  datatype ReviewAction =
    | ReviewFormAbsent
    | ReviewRefused(message: string)
    | ReviewPosted(productId: string, body: string, authToken: string)

  /** Submitting a review. The form exists only on a loaded page while the
      stored token is truthy; without it there is nothing to click. A record
      with no id is refused as not loaded, a blank or white-space-only text
      as empty; otherwise the untrimmed text is posted with the stored token
      as `auth-token`. */
  function SubmitReview(v: View, storedToken: Maybe<string>): (a: ReviewAction)
    ensures a.ReviewFormAbsent? <==> v.product.Undefined? || Falsy(storedToken)
    ensures a.ReviewPosted? <==>
              v.product.Defined? && !Falsy(storedToken) && v.product.value.id != "" && !Blank(v.reviewText)
    ensures a.ReviewPosted? ==>
              a.productId == v.product.value.id && a.body == v.reviewText && a.authToken == storedToken.value
    ensures a.ReviewRefused? && v.product.value.id == "" ==> a.message == NotLoadedMessage
    ensures a.ReviewRefused? && v.product.value.id != "" ==> a.message == EmptyReviewMessage && Blank(v.reviewText)
  {
    if v.product.Undefined? || Falsy(storedToken) then ReviewFormAbsent
    else if v.product.value.id == "" then ReviewRefused(NotLoadedMessage)
    else if Trim(v.reviewText) == "" then
      TrimEmptyIffBlank(v.reviewText);
      ReviewRefused(EmptyReviewMessage)
    else
      TrimEmptyIffBlank(v.reviewText);
      ReviewPosted(v.product.value.id, v.reviewText, storedToken.value)
  }

  /** The backend's answer to a posted review: a 2xx status, another status
      with an optional `message`, or a failure to fetch or parse. */
  datatype ReviewReply = ReviewOk | ReviewNotOk(message: Maybe<string>) | ReviewFailed

  datatype ReviewResult = Reloaded | ReviewKept(view: View, toast: string)

  /** After posting: success blanks the draft to " " and reloads the page,
      which discards all local state; anything else keeps the page and
      shows the server's message or a fixed text. */
  function OnReviewReply(v: View, reply: ReviewReply): (r: ReviewResult)
    ensures r.Reloaded? <==> reply.ReviewOk?
    ensures r.ReviewKept? ==> r.view == v
    ensures reply.ReviewFailed? ==> r == ReviewKept(v, "Error submitting review")
    ensures reply.ReviewNotOk? && !Falsy(reply.message) ==> r == ReviewKept(v, reply.message.value)
    ensures reply.ReviewNotOk? && Falsy(reply.message) ==> r == ReviewKept(v, "Failed to submit review")
  {
    match reply
    case ReviewOk => Reloaded
    case ReviewNotOk(msg) => ReviewKept(v, OrElse(msg, "Failed to submit review"))
    case ReviewFailed => ReviewKept(v, "Error submitting review")
  }

  // ---------------------------------------------------------------------
  // The page as a state machine

  datatype Event =
    | LoadProduct(products: seq<Product>, routeId: string)
    | ClickThumbnail(index: nat)
    | ClickSize(index: nat)
    | EnterUnits(units: int)
    | TypeReview(text: string, storedToken: Maybe<string>)   // with the token slot as the page reads it

  /** Whether the event's element is on screen and enabled: thumbnails and
      size buttons exist only for a loaded product, the units input only
      while it is not disabled, the review box only while the stored token
      is truthy. */
  predicate Available(v: View, e: Event)
  {
    match e
    case LoadProduct(_, _) => true
    case ClickThumbnail(i) => v.product.Defined? && i < |v.product.value.images|
    case ClickSize(i) => v.product.Defined? && i < |v.product.value.sizes|
    case EnterUnits(_) => v.product.Defined? && !Disabled(v.product.value)
    case TypeReview(_, token) => v.product.Defined? && !Falsy(token)
  }

  /** One event. An event on an element that is absent or disabled does
      nothing; every event keeps the image and units rules. */
  function Step(v: View, e: Event): (w: View)
    ensures !Available(v, e) ==> w == v
    ensures ImageOk(v) && UnitsOk(v) ==> ImageOk(w) && UnitsOk(w)
    ensures e.ClickThumbnail? && Available(v, e) ==> w == v.(image := Defined(v.product.value.images[e.index]))
    ensures e.ClickSize? && Available(v, e) ==> w == v.(size := v.product.value.sizes[e.index])
    ensures w.size != v.size ==> e.ClickSize?
    ensures e.LoadProduct? ==> w == Load(v, e.products, e.routeId)
    ensures e.EnterUnits? && Available(v, e) ==> w == v.(quantity := e.units)
    ensures e.TypeReview? && Available(v, e) ==> w == v.(reviewText := e.text)
  {
    if !Available(v, e) then v
    else
      match e
      case LoadProduct(products, id) => Load(v, products, id)
      case ClickThumbnail(i) => v.(image := Defined(v.product.value.images[i]))
      case ClickSize(i) => v.(size := v.product.value.sizes[i])
      case EnterUnits(n) => v.(quantity := n)
      case TypeReview(text, _) => v.(reviewText := text)
  }

  /** The shown image belongs to the shown product: it is one of its images,
      or undefined when the product has none. */
  predicate ImageOk(v: View)
  {
    v.product.Defined? ==>
      if |v.product.value.images| > 0 then v.image.Defined? && v.image.value in v.product.value.images
      else v.image.Undefined?
  }

  /** A product out of stock always has 0 units asked for. */
  predicate UnitsOk(v: View)
  {
    v.product.Defined? && Disabled(v.product.value) ==> v.quantity == 0
  }

  /** The selected size is none, or one the shown product offers. */
  predicate SizeOk(v: View)
  {
    v.size == "" || (v.product.Defined? && v.size in v.product.value.sizes)
  }

  /** Every event keeps the size rule, except a load that brings in a product
      which does not offer the selected size: the page never clears `size`. */
  lemma StepKeepsSize(v: View, e: Event)
    requires SizeOk(v)
    requires e.LoadProduct? && LastMatch(e.products, e.routeId).Defined? ==>
               v.size == "" || v.size in e.products[LastMatch(e.products, e.routeId).value].sizes
    ensures SizeOk(Step(v, e))
  {
  }

  /** A size chosen on one product survives moving to another that lacks it,
      and the add-to-cart guard then lets that size through. */
  lemma StaleSizeReachesCart()
    ensures var a := Product("a", "A", ["a.png"], ["500g"], 5, Undefined);
            var b := Product("b", "B", ["b.png"], ["1kg"], 5, Undefined);
            var v := Step(Step(Step(Initial, LoadProduct([a, b], "a")), ClickSize(0)), LoadProduct([a, b], "b"));
            && !SizeOk(v)
            && ClickAddToCart(v) == AddAndNavigate("b", "500g", 1, "/cart")
  {
    var a := Product("a", "A", ["a.png"], ["500g"], 5, Undefined);
    var b := Product("b", "B", ["b.png"], ["1kg"], 5, Undefined);
    assert LastMatch([a, b], "a") == Defined(0);
    assert LastMatch([a, b], "b") == Defined(1);
  }

  /** With the units rule in force the `disabled` attribute is redundant for
      the decision: on a loaded product, adding happens exactly when a size
      is chosen and at least one unit is asked for. */
  lemma AddsIffSizeAndUnits(v: View)
    requires UnitsOk(v) && v.product.Defined?
    ensures ClickAddToCart(v).AddAndNavigate? <==> v.size != "" && v.quantity >= 1
  {
  }

  /** With the units rule in force the input always displays the units the
      page holds: the `stock > 0 ? units : 0` choice never hides a value, and
      a product out of stock shows and holds 0. */
  lemma DisplayedIsHeld(v: View)
    requires UnitsOk(v) && v.product.Defined?
    ensures DisplayedQuantity(v.product.value, v.quantity) == v.quantity
    ensures Disabled(v.product.value) ==> DisplayedQuantity(v.product.value, v.quantity) == 0
  {
  }

  /** More units than in stock pass through unchanged. */
  lemma UnitsNotCappedAtStock(v: View)
    requires v.product.Defined? && 0 < v.product.value.stock < v.quantity && v.size != ""
    ensures ClickAddToCart(v).AddAndNavigate? && ClickAddToCart(v).units == v.quantity
  {
  }

  /** The view after a sequence of events; the image and units rules hold
      throughout once they hold at the start. */
  function Run(v: View, events: seq<Event>): (w: View)
    ensures ImageOk(v) && UnitsOk(v) ==> ImageOk(w) && UnitsOk(w)
    decreases |events|
  {
    if |events| == 0 then v
    else Run(Step(v, events[0]), events[1..])
  }

  /** The page does reach more units than are in stock: load a product with
      two in stock, pick its size, enter five units, and the cart gets five. */
  lemma UnitsAboveStockReachable()
    ensures var p := Product("p", "P", ["p.png"], ["250g"], 2, Undefined);
            var v := Step(Step(Step(Initial, LoadProduct([p], "p")), ClickSize(0)), EnterUnits(5));
            ClickAddToCart(v) == AddAndNavigate("p", "250g", 5, "/cart")
  {
    var p := Product("p", "P", ["p.png"], ["250g"], 2, Undefined);
    assert LastMatch([p], "p") == Defined(0);
  }

  /** Every view reachable from the mounted page shows an image of the shown
      product and asks for 0 units of a product out of stock. */
  lemma ReachableImageAndUnitsOk(events: seq<Event>)
    ensures ImageOk(Run(Initial, events)) && UnitsOk(Run(Initial, events))
  {
  }
}
