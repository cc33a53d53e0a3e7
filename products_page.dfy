/** Products.js: the product list page, its edit form, and the local
    updates it makes after a delete, an image upload or an image removal. */
module ProductsPage {
  import opened Base
  import ProductUpload

  /** A product as listed; the price is kept as its text. */
  datatype Product = Product(id: string, name: string, price: string, images: seq<string>)

  /** The edit form's `formData`. */
  datatype Form = Form(name: string, price: string, images: seq<string>)

  /** `images.filter((_, i) => i !== index)`: an index outside the list
      removes nothing. */
  function RemoveAt(images: seq<string>, index: int): (r: seq<string>)
    ensures 0 <= index < |images| ==> r == images[..index] + images[index + 1..]
    ensures !(0 <= index < |images|) ==> r == images
    decreases |images|
  {
    if images == [] then []
    else (if index == 0 then [] else [images[0]]) + RemoveAt(images[1..], index - 1)
  }

  /** `removeImage`: only the images change. */
  function RemoveImage(form: Form, index: int): (r: Form)
    ensures r.name == form.name && r.price == form.price
    ensures |r.images| == if 0 <= index < |form.images| then |form.images| - 1 else |form.images|
    ensures forall i :: 0 <= i < |r.images| ==>
      r.images[i] == form.images[if 0 <= index <= i then i + 1 else i]
  {
    form.(images := RemoveAt(form.images, index))
  }

  /** `handleDelete`: after the confirmation and a request that did not
      throw, the product leaves the local list whatever the status was. */
  function HandleDelete(products: seq<Product>, id: string, confirmed: bool, requestThrew: bool): (r: seq<Product>)
    ensures !confirmed || requestThrew ==> r == products
    ensures confirmed && !requestThrew ==>
      (forall p :: p in r <==> p in products && p.id != id)
  {
    if !confirmed || requestThrew then products
    else Filter(products, (p: Product) => p.id != id)
  }

  /** `handleEdit`: the product being edited and a form holding a copy of
      its fields and images. */
  function HandleEdit(product: Product): (r: (Product, Form))
    ensures r.0 == product
    ensures r.1.name == product.name && r.1.price == product.price && r.1.images == product.images
  {
    (product, Form(product.name, product.price, product.images))
  }

  /** `handleImageUpload`: one upload per file, in order, with no `catch`.
      `upload` stands for the image host: the URL of the stored copy, or None
      when the `fetch` or `res.json()` throws. A throw ends the handler before
      the form is set, so the form keeps its images, the URLs uploaded before
      are lost, and the remaining files are never sent. `sent` counts the
      upload requests made. */
  method HandleImageUpload(form: Form, files: seq<ProductUpload.File>, upload: ProductUpload.File -> Option<string>)
    returns (r: Form, sent: nat)
    ensures sent <= |files|
    ensures forall j :: 0 <= j < sent - 1 ==> upload(files[j]).Some?
    ensures (forall i :: 0 <= i < |files| ==> upload(files[i]).Some?) ==>
      sent == |files| && r.name == form.name && r.price == form.price &&
      |r.images| == |form.images| + |files| && r.images[..|form.images|] == form.images &&
      forall i :: 0 <= i < |files| ==> Some(r.images[|form.images| + i]) == upload(files[i])
    ensures (exists i :: 0 <= i < |files| && upload(files[i]).None?) ==>
      r == form && 0 < sent && upload(files[sent - 1]).None?
  {
    var uploaded: seq<string> := [];
    sent := 0;
    while sent < |files|
      invariant sent <= |files| && |uploaded| == sent
      invariant forall j :: 0 <= j < sent ==> Some(uploaded[j]) == upload(files[j])
    {
      var url := upload(files[sent]);
      sent := sent + 1;
      if url.None? {
        return form, sent;
      }
      uploaded := uploaded + [url.value];
    }
    r := form.(images := form.images + uploaded);
  }

  /** Removing what an upload just added restores the form, one image at a
      time from the end. */
  lemma RemoveLastUploaded(form: Form, url: string)
    ensures RemoveImage(form.(images := form.images + [url]), |form.images|) == form
  {
  }
}
