// Pages of an image with the builder's defaults, byte by byte.
module SpiffsExample {
  import opened Bytes
  import opened Powers
  import opened SpiffsImage
  import opened SpiffsBlocks
  import opened SpiffsBytes
  import N = NatBits

  // Pages of 256 bytes in blocks of 4096, numbers of two bytes with the low one first, names
  // of 32 bytes and four bytes of metadata.
  const DEFAULTS := Format(Config(256, 4096, 2, 2, 4, 32, 2, 2), false, true)

  lemma PackTwo(v: nat)
    requires v < 0x10000
    ensures Pack(false, v, 2) == [v % 256, v / 256]
  {
    assert Pack(false, v / 256 / 256, 0) == [];
    assert Pack(false, v / 256, 1) == [v / 256 % 256];
  }

  lemma PackFour(v: nat)
    requires v < 256
    ensures Pack(false, v, 4) == [v, 0, 0, 0]
  {
    assert Pack(false, 0, 0) == [];
    assert Pack(false, 0, 1) == [0];
    assert Pack(false, 0, 2) == [0, 0];
    assert Pack(false, 0, 3) == [0, 0, 0];
  }

  lemma DataPageExample()
    ensures PageBytes(DEFAULTS, Data(1, 0, [0x68, 0x69], 0x200))
         == Some([0x01, 0x00, 0x00, 0x00, 0xFC, 0x68, 0x69] + Repeat<byte>(0xFF, 249))
  {
    PackTwo(1);
    PackTwo(0);
    hide Pack, Repeat;
    var x := Data(1, 0, [0x68, 0x69], 0x200);
    assert Base(2) == 0x10000;
    assert PageContent(DEFAULTS, x) == [0x01, 0x00, 0x00, 0x00, 0xFC, 0x68, 0x69];
  }

  lemma NameExample()
    ensures NameField(DEFAULTS, "a") == [0x61] + Repeat<byte>(0, 35)
  {
    hide Repeat;
    assert "a"[1..] == "";
    assert NameBytes("a") == Encoded('a') + NameBytes("");
  }

  lemma PageNumberExample()
    ensures PageNumber(DEFAULTS, 0x200) == 2
  {
    assert Log2(256) == 8 && Pow2(8) == 256;
  }

  lemma IndexStartExample()
    ensures IndexStart(DEFAULTS, Index(1, 0, 2, "a", [0x200], 0.0))
         == [0x01, 0x80, 0x00, 0x00, 0xF8, 0xFF, 0xFF, 0xFF, 0x02, 0x00, 0x00, 0x00, 0x01, 0x61] + Repeat<byte>(0, 35)
  {
    hide Pack, Repeat, NameField, Base;
    PackTwo(0x8001);
    PackTwo(0);
    PackFour(2);
    NameExample();
    Bases();
    FewFree();
    assert FlipTop(1, 2) == 0x8001;
    assert Header(DEFAULTS, 0x8001, 0, FLAG_INDEX) == [0x01, 0x80, 0x00, 0x00, 0xF8];
  }

  lemma IndexPageExample()
    ensures PageBytes(DEFAULTS, Index(1, 0, 2, "a", [0x200], 0.0))
         == Some([0x01, 0x80, 0x00, 0x00, 0xF8, 0xFF, 0xFF, 0xFF, 0x02, 0x00, 0x00, 0x00, 0x01, 0x61]
                 + Repeat<byte>(0, 35) + [0x02, 0x00] + Repeat<byte>(0xFF, 205))
  {
    hide Pack, Repeat, PageNumber, IndexStart, Base;
    PackTwo(2);
    PageNumberExample();
    IndexStartExample();
    Bases();
    assert Numbers(DEFAULTS, [0x200]) == [2];
    assert PackAll(false, [2], 2) == [0x02, 0x00] by {
      assert [2][1..] == [];
    }
  }

  lemma Bases()
    ensures Base(2) == 0x10000 && Base(4) == 0x1_0000_0000
  {
  }

  // The mark of the first of 16 blocks,
  lemma MagicExample()
    ensures Magic(DEFAULTS, 16) == 0x0439
  {
    XorExample();
    Bases();
    hide N.Xor, Base;
    assert 0x20140439 % 0x10000 == 0x0439;
  }

  lemma XorExample()
    ensures N.Xor(N.Xor(MAGIC, 256), 16) == 0x20140439
  {
    SmallXors();
    SmallPowers();
    assert Pow2(9) == 512 && Pow2(5) == 32;
    hide N.Xor, Pow2;
    N.XorLow(0x100A02, 0x129, 0x100, 9);
    N.XorLow(0x100A021, 0x09, 0x10, 5);
  }

  lemma SmallXors()
    ensures N.Xor(0x129, 0x100) == 0x29 && N.Xor(0x09, 0x10) == 0x19
  {
    hide N.Xor;
    N.XorZero(0);
    N.XorZero(1);
    XorOnce(1, 1, 0);
    XorOnce(2, 2, 0);
    XorOnce(4, 4, 0);
    XorOnce(9, 8, 0);
    XorOnce(0x12, 0x10, 1);
    XorOnce(0x25, 0x20, 2);
    XorOnce(0x4A, 0x40, 5);
    XorOnce(0x94, 0x80, 0xA);
    XorOnce(0x129, 0x100, 0x14);
    XorOnce(0, 1, 0);
    XorOnce(1, 2, 1);
    XorOnce(2, 4, 3);
    XorOnce(4, 8, 6);
    XorOnce(9, 0x10, 0xC);
  }

  lemma XorOnce(x: nat, y: nat, half: nat)
    requires N.Xor(x / 2, y / 2) == half
    ensures N.Xor(x, y) == 2 * half + (x + y) % 2
  {
    N.XorHalf(x, y);
  }

  // and the lookup page of this block when it holds one file of one page.
  lemma LookupPageExample()
    ensures BlockWritable(DEFAULTS, OneFile())
    ensures LookupPage(DEFAULTS, OneFile(), 16, 0)
         == [0x01, 0x80, 0x01, 0x00] + Repeat<byte>(0xFF, 248) + [0x39, 0x04, 0xFF, 0xFF]
  {
    hide Pack, Repeat, Magic, PackAll, Base;
    var f, b := DEFAULTS, OneFile();
    MagicExample();
    Bases();
    assert FlipTop(1, 2) == 0x8001;
    var vs, free := RawIds(f, b.lookups[0]), Repeat<nat>(0xFFFF, 124);
    assert vs == [0x8001, 1];
    assert WithMagic(f, vs, 0x0439) == vs + free + [0x0439];
    ListExample();
    FewFree();
  }

  lemma ListExample()
    ensures PackAll(false, [0x8001, 1] + Repeat<nat>(0xFFFF, 124) + [0x0439], 2)
         == [0x01, 0x80, 0x01, 0x00] + Repeat<byte>(0xFF, 248) + [0x39, 0x04]
  {
    hide PackAll, Repeat;
    var vs, free := [0x8001 as nat, 1], Repeat<nat>(0xFFFF, 124);
    PackAllAdd(vs + free, [0x0439]);
    PackAllAdd(vs, free);
    PackAllAdd([0x8001], [1]);
    assert vs == [0x8001] + [1];
    PackOne(0x8001);
    PackOne(1);
    PackOne(0x0439);
    PackFree(124);
  }

  lemma FewFree()
    ensures Repeat(FREE, 2) == [0xFF, 0xFF] && Repeat(FREE, 3) == [0xFF, 0xFF, 0xFF]
  {
  }

  lemma PackOne(v: nat)
    requires v < 0x10000
    ensures PackAll(false, [v], 2) == [v % 256, v / 256]
  {
    PackTwo(v);
    hide Pack;
    assert [v][1..] == [];
  }

  lemma {:induction false} PackAllAdd(a: seq<nat>, b: seq<nat>)
    ensures PackAll(false, a + b, 2) == PackAll(false, a, 2) + PackAll(false, b, 2)
  {
    hide Pack;
    if a == [] {
      assert a + b == b;
    } else {
      assert (a + b)[1..] == a[1..] + b;
      PackAllAdd(a[1..], b);
    }
  }

  lemma {:induction false} PackFree(n: nat)
    ensures PackAll(false, Repeat<nat>(0xFFFF, n), 2) == Repeat(FREE, 2 * n)
  {
    hide Pack;
    if n > 0 {
      var rest := Repeat<nat>(0xFFFF, n - 1);
      PackTwo(0xFFFF);
      PackFree(n - 1);
      assert ([0xFFFF] + rest)[1..] == rest;
      TwoMore(n - 1);
    }
  }

  lemma TwoMore(n: nat)
    ensures Repeat(FREE, 2 * (n + 1)) == [FREE, FREE] + Repeat(FREE, 2 * n)
  {
    FewFree();
    RepeatSplit(FREE, 2, 2 * n);
  }

  function OneFile(): Block
  {
    Block([[(1, true), (1, false)]], 0, [], 13, NO_OBJECT)
  }
}
