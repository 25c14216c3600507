# Urban Wheel Pottery API — a verified model of the catalog and contact endpoints

The API serves a fixed catalog of eight pottery products and takes contact-form submissions.
This project models its request logic in Dafny and proves properties of the model:

- **Listing** (`GET /api/products`). The catalog passes through up to three filters in turn:
  `type` (compared case-insensitively), `minPrice` and `maxPrice`. Each filter is a list
  comprehension over the previous result. The type filter runs only when `type` is truthy,
  so `""` means no filter. A price bound runs whenever it is present, so a bound of 0 still filters.
- **Lookup** (`GET /api/products/{slug}`). A search loop returns the first product with the
  slug, or raises a 404 error with detail "Product not found".
- **Contact** (`POST /api/contact`). The form must have a name of at least 1 character, a
  well-formed email and a message of 5 to 2000 characters. Otherwise the request is refused
  with status 422. An accepted form is always reported with `success: true`. When the
  document store saved it, `stored` is true and the new `id` is included. When the store
  failed, `stored` is false, the note is "Saved without DB", and the error text is cut to
  120 characters.

Modules:

- `Wrappers` (`wrappers.dfy`): `Option`, `Result` and `HttpError`.
- `Text` (`text.dfy`): ASCII lower-casing and the `s[:n]` prefix.
- `Subsequences` (`subsequences.dfy`): order-preserving sub-sequences. Its uniqueness lemma
  says that a filter is fixed by which values it keeps.
- `Catalog` (`catalog.dfy`): products, the built-in catalog, the listing and the lookup.
- `Contact` (`contact.dfy`): the form schema and the submission response.

The listing is specified by `Matches(p, q)`, the conjunction of the active filters. It is
written independently of the staged implementation `ListProducts`. `Selects(r, s, q)` says
that `r` holds the products of `s` that match `q`, every copy of each, in the order of `s`.
`ListProductsSelects` proves that the listing selects in this sense. `SelectsUnique` proves
that this description fixes the result. Idempotence and independence from filter order both
follow from these two lemmas.

## Model

| member | source | states |
|---|---|---|
| `Text.LowerChar` | main.py:104 | The result is never an upper-case ASCII letter. An upper-case letter maps to the lower-case letter at the same alphabet position. Every other character is unchanged. |
| `Text.Lower` | main.py:104 | The result has the length of the input and contains no upper-case ASCII letter. Each upper-case letter is replaced by its lower-case form, and every other character is kept. |
| `Text.Prefix` | main.py:131 | `str(e)[:120]`: the result is a prefix of the input, at most `n` long. A short input is returned whole, and a long one is cut to exactly `n`. |
| `Catalog.Keep` | main.py:104-108 | One list comprehension: never longer than its input. What it keeps is stated by `KeepSound`, `KeepCounts` and `KeepInOrder`. |
| `Catalog.KeepSound` | main.py:104-108 | One comprehension keeps only products that satisfy its condition. |
| `Catalog.KeepCounts` | main.py:104-108 | One comprehension keeps every copy of each product that satisfies its condition and nothing else: the multiplicity is the input's or 0. |
| `Catalog.KeepInOrder` | main.py:104-108 | One comprehension's result is a sub-sequence of its input, so the catalog order is kept. |
| `Catalog.ListProducts` | main.py:100-109 | The three filters in turn: the listing is never longer than the catalog. What it lists is stated by `ListProductsSelects` and `ListAllIffAllMatch`. |
| `Catalog.ListProductsSelects` | main.py:100-109 | Every listed product passes every active filter. Every catalog product that passes them all is listed, as often as it occurs. The listing is a sub-sequence of the catalog. |
| `Catalog.SelectsUnique` | main.py:102-108 | Two sequences that both select by the same query from the same catalog are equal. |
| `Catalog.ListAllIffAllMatch` | main.py:102-109 | The listing equals the whole catalog, unchanged and in order, if and only if every catalog product passes the active filters. |
| `Catalog.NoFiltersListsCatalog` | main.py:102-109 | With `type` absent or empty and both bounds absent, the listing is the catalog itself. |
| `Catalog.EmptyKindIgnored` | main.py:103 | `type=""` lists the same as an absent `type`, whatever the price bounds. |
| `Catalog.ZeroMaxPriceApplied` | main.py:107-108 | A `maxPrice` of 0 is applied, not taken as absent: on the built-in catalog it lists nothing. |
| `Catalog.ListProductsIdempotent` | main.py:102-108 | Listing the result of a listing again with the same query gives the same result. |
| `Catalog.ListProductsInStages` | main.py:102-108 | The listing runs the type stage, then the minimum-price stage, then the maximum-price stage. |
| `Catalog.PassesListingOrder` | main.py:103-108 | A product passes all three stages if and only if it matches the query. |
| `Catalog.ApplyStagesSelects` | main.py:103-108 | Running the stages in any order, repeats allowed, keeps exactly the products that pass every stage run, with all their copies, in catalog order. |
| `Catalog.StageOrderIrrelevant` | main.py:103-108 | Any order of stages that includes all three gives the same listing as the source's order. |
| `Catalog.MugListing` | main.py:27-92 | On the built-in catalog, `type=mug` lists exactly terra-mug and wheel-mug, in that order. |
| `Catalog.FirstSlugIndex` | main.py:114-116 | The position of the first product with the slug. No earlier product has that slug, and the result is the catalog length when no product has it. |
| `Catalog.GetProduct` | main.py:112-117 | The result is a 404 "Product not found" error if and only if no catalog product has the slug. Otherwise it is the first product with that slug. |
| `Catalog.FindProduct` | main.py:113-117 | The search loop with its early return gives the same result as `GetProduct` on every input. |
| `Catalog.GetProductOfMember` | main.py:113-116 | When slugs are pairwise distinct, looking up any catalog product's slug returns that product. |
| `Catalog.SampleSlugsDistinct` | main.py:26-92 | The built-in catalog's slugs are pairwise distinct. |
| `Catalog.SampleLookupRoundTrip` | main.py:112-117 | Every product of the built-in catalog is found by its own slug. |
| `Contact.Violations` | main.py:19-22 | The list of violations is empty if and only if the form is valid. Each violation is reported exactly when its field breaks its constraint: name shorter than 1, email rejected, message shorter than 5, or longer than 2000. |
| `Contact.SubmitContact` | main.py:120-131 | The request is accepted if and only if the form is valid; otherwise the result is a 422 error that carries exactly the form's violations, at least one. An accepted response always has `success` true. `stored` is true and `id` is present exactly when the store succeeded, and then `id` is the store's id. Otherwise the note is "Saved without DB" and the error is `str(e)[:120]`: a prefix of the store's error text, the whole text when it has at most 120 characters, and exactly 120 characters otherwise. |
| `Contact.StorageNeverRejects` | main.py:124-131 | Whether a form is accepted does not depend on what the store did. |
| `Contact.MessageLengthBoundary` | main.py:22 | With a valid name and email, a 4-character message is refused as too short, a 5- or 2000-character message is accepted, and a 2001-character message is refused as too long. |

## Left out

- The web framework: the app object, CORS middleware, route decorators and the server
  start-up (main.py:8-16, 168-171). Query and body parsing are left out too. In
  particular, a non-numeric `minPrice` is refused by the framework before `list_products` runs.
- The `{"items": ...}` wrapper around the listing: `ListProducts` returns the list itself.
- The root endpoint (main.py:95-97): it returns a constant payload.
- The `/test` diagnostic endpoint (main.py:134-165). It only reports environment variables and
  the state of the database connection.
- The `database` module: it is not part of this model. The outcome of `create_document` is an
  input of `SubmitContact`, either the new id or the error text. The model does not check
  that the stored document equals the form.
- Email syntax: the validation library's `EmailStr` rules are not visible, so well-formedness
  is the function parameter `isEmail`.
- Full Unicode `str.lower()`: case folding covers ASCII letters only.
- Floating-point prices: prices and bounds are `real`. The source only compares them, and
  its prices are whole numbers.
- The exact text of the store's exception: only its 120-character cut is modelled.
- The validation error body: a refused form gives status 422 and the violated fields.
  The framework's full error document is not modelled.
- `FindProduct` and the lemmas take the catalog as a parameter. The source always searches its
  one module-level list, which appears here as `SampleProducts`.

An empty `type` is treated as absent, because the filter runs only when `type` is truthy
(main.py:103). Slugs are unique only by convention (the comment at main.py:26), and nothing
checks it. Lookup returns the first match, and `GetProductOfMember` assumes distinct slugs.
