/** Math.min on integers, as the front-end components use it. */
module Numbers {

  function Min(a: int, b: int): (r: int)
    ensures r <= a && r <= b && (r == a || r == b)
  {
    if a <= b then a else b
  }
}
