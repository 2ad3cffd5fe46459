/** The schema the application ships with. */
module Experiments {
  import opened Types

  const EXPERIMENTS: Schema := [
    ("button_text", [("button_text", [Str("Buy now"), Str("Add to cart")])]),
    ("image", [("image_url", [Str("verceltshirt"), Str("verceltshirtgroup")])]),
    ("headline", [("headline", [Str("Vercel t-shirt"), Str("100% cotton premium Vercel-branded t-shirt")])])
  ]
}
