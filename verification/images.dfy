/**
  Names of the evidence images kept in the `images` drive. `add_image` draws
  a random integer in [0, 1000000000], renders it in decimal and appends
  ".jpg"; that string is what it returns and what the completion record keeps.
*/
module Images {

  /** Largest value `random.randint(0, 1000000000)` can draw. */
  const MaxDraw: nat := 1000000000

  function DigitChar(d: nat): (c: char)
    requires d < 10
    ensures '0' <= c <= '9'
  {
    (48 + d) as char
  }

  predicate AllDigits(s: string) {
    forall k :: 0 <= k < |s| ==> '0' <= s[k] <= '9'
  }

  /** The number a string of decimal digits denotes, most significant first. */
  function DigitsValue(s: string): nat
    requires AllDigits(s)
  {
    if |s| == 0 then 0
    else DigitsValue(s[..|s| - 1]) * 10 + (s[|s| - 1] as int - 48)
  }

  /**
    Decimal rendering of a natural number, as Python's `str` gives it: the
    digits denote `n`, and only zero itself starts with '0'.
  */
  function Decimal(n: nat): (s: string)
    ensures |s| >= 1 && AllDigits(s)
    ensures DigitsValue(s) == n
    ensures s[0] == '0' <==> n == 0
  {
    if n < 10 then [DigitChar(n)]
    else
      var high := Decimal(n / 10);
      var s := high + [DigitChar(n % 10)];
      assert s[..|s| - 1] == high;
      s
  }

  /** The image name `add_image` returns: `f"{draw}.jpg"`. */
  function ImageName(draw: nat): (name: string)
    ensures |name| >= 5 && name[|name| - 4..] == ".jpg"
    ensures name[..|name| - 4] == Decimal(draw)
    ensures AllDigits(name[..|name| - 4]) && DigitsValue(name[..|name| - 4]) == draw
    ensures name[0] == '0' <==> draw == 0
  {
    var digits := Decimal(draw);
    assert (digits + ".jpg")[..|digits|] == digits;
    digits + ".jpg"
  }

  /** Different draws give different names: the name determines the draw. */
  lemma ImageNameInjective(a: nat, b: nat)
    ensures ImageName(a) == ImageName(b) <==> a == b
  {
  }

  /**
    The drive key `add_image` writes the file under: `f"{image_name}.jpg"`,
    which appends the extension a second time. The model reads the second
    argument of the drive's `put` as the file name; the drive library's
    signature is not part of this model.
  */
  function AsWrittenDriveKey(name: string): (key: string)
    ensures |key| == |name| + 4 && key[..|name|] == name
    ensures key != name
  {
    name + ".jpg"
  }

  /**
    As written, the name `add_image` returns is never the key it stored the
    file under, so on a drive that did not already hold that name the
    returned reference finds no file.
  */
  lemma AsWrittenReferenceDangles(drive: map<string, seq<bv8>>, draw: nat, image: seq<bv8>)
    requires ImageName(draw) !in drive
    ensures AsWrittenDriveKey(ImageName(draw)) != ImageName(draw)
    ensures ImageName(draw) !in drive[AsWrittenDriveKey(ImageName(draw)) := image]
  {
  }

  /** A concrete instance: draw 7 returns "7.jpg" but stores "7.jpg.jpg". */
  lemma AsWrittenDrawSeven()
    ensures ImageName(7) == "7.jpg"
    ensures AsWrittenDriveKey(ImageName(7)) == "7.jpg.jpg"
    ensures "7.jpg" !in map[AsWrittenDriveKey(ImageName(7)) := [0xFF as bv8, 0xD8 as bv8]]
  {
  }
}
