// The growing string of tools/cnoh.c (455-480): a buffer that is enlarged when it is full.

module GrowString {
  import opened Lexemes

  class String {
    var nAlloc: nat
    var nUsed: nat
    var zText: array?<char>
    ghost var moved: nat          // bytes that reallocation has had to move so far

    // zText has nAlloc characters, holds nUsed of them, and is terminated within its bounds.
    ghost predicate Valid()
      reads this, zText
    {
      && (zText == null <==> nAlloc == 0)
      && (zText == null ==> nUsed == 0 && moved == 0)
      && (zText != null ==> zText.Length == nAlloc && nUsed < nAlloc && zText[nUsed] == NUL)
      && moved <= nAlloc
      && nAlloc <= 3 * nUsed + 100
    }

    ghost function Text(): string
      requires Valid()
      reads this, zText
    {
      if zText == null then "" else zText[..nUsed]
    }

    // 455-459
    constructor ()
      ensures Valid() && Text() == "" && zText == null
    {
      nAlloc, nUsed, zText, moved := 0, 0, null, 0;
    }

    // 460-463
    method StringReset()
      modifies this
      ensures Valid() && Text() == "" && zText == null
    {
      nAlloc, nUsed, zText, moved := 0, 0, null, 0;
    }

    // Makes room for nByte more characters and the terminator (468-476).
    method Reserve(nByte: nat)
      requires Valid()
      modifies this
      ensures zText != null && zText.Length == nAlloc && nUsed + nByte < nAlloc
      ensures nUsed == old(nUsed) && zText[..nUsed] == old(Text())
      ensures zText == old(zText) || fresh(zText)
      ensures old(nAlloc) <= nAlloc && moved <= nAlloc && nAlloc <= 3 * (nUsed + nByte) + 100
    {
      if nUsed + nByte >= nAlloc {
        if nAlloc == 0 {
          nAlloc := nByte + 100;
          zText := new char[nAlloc](_ => NUL);
        } else {
          var was := zText;
          moved := moved + nAlloc;
          nAlloc := nAlloc * 2 + nByte;
          var now := new char[nAlloc](i => NUL);
          CopyInto(was, now);
          zText := now;
        }
      }
    }

    // What realloc does with the old contents.
    static method CopyInto(from: array<char>, to: array<char>)
      requires from.Length <= to.Length && from != to
      modifies to
      ensures to[..from.Length] == from[..]
    {
      var i := 0;
      while i < from.Length
        invariant i <= from.Length && to[..i] == from[..i]
      {
        to[i] := from[i];
        i := i + 1;
      }
    }

    // strncpy, for texts that are long enough.
    static method Copy(a: array<char>, at: nat, text: string, n: nat)
      requires at + n <= a.Length && n <= |text|
      modifies a
      ensures a[..at + n] == old(a[..at]) + text[..n]
    {
      var i := 0;
      while i < n
        invariant i <= n && a[..at + i] == old(a[..at]) + text[..i]
      {
        a[at + i] := text[i];
        i := i + 1;
      }
    }

    // 464-480; text is the C string at zText. A count of zero or less stands for all of it.
    method StringAppend(text: string, count: int)
      requires Valid() && CString(text) && count <= |text|
      modifies this, zText
      ensures Valid() && Text() == old(Text()) + if count <= 0 then text else text[..count]
      ensures zText != null && (zText == old(zText) || fresh(zText))
      ensures old(nAlloc) <= nAlloc
    {
      var nByte := if count <= 0 then |text| else count;
      Reserve(nByte);
      Copy(zText, nUsed, text, nByte);
      nUsed := nUsed + nByte;
      zText[nUsed] := NUL;
    }
  }

  ghost function Total(texts: seq<string>): string {
    if texts == [] then "" else Total(texts[..|texts| - 1]) + texts[|texts| - 1]
  }

  // A run of appends builds the concatenation. The buffer is never more than three times as long as
  // its text plus 100, and all reallocations together have moved no more than that.
  method AppendAll(texts: seq<string>) returns (s: String)
    requires forall k | 0 <= k < |texts| :: CString(texts[k])
    ensures s.Valid() && s.Text() == Total(texts)
    ensures s.moved <= s.nAlloc <= 3 * |Total(texts)| + 100
  {
    s := new String();
    var i := 0;
    while i < |texts|
      invariant i <= |texts| && fresh(s) && (s.zText != null ==> fresh(s.zText))
      invariant s.Valid() && s.Text() == Total(texts[..i])
    {
      s.StringAppend(texts[i], 0);
      assert texts[..i + 1][..i] == texts[..i];
      i := i + 1;
    }
    assert texts[..i] == texts;
  }
}
