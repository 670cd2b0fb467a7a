/** hexToBytes32 of the EVM order tool (open-order/evm_order.go). */
module EvmOrder {
  import opened Bytes
  import opened Hex
  import opened OrderEncoder
  import opened Types
  import opened Wrappers

  lemma {:induction false} ValueOfLeadingZero(s: string)
    ensures Value("0" + s) == Value(s)
  {
    if |s| == 0 {
      assert "0"[..0] == "";
    } else {
      ValueOfLeadingZero(s[..|s| - 1]);
      assert ("0" + s)[..|s|] == "0" + s[..|s| - 1];
    }
  }

  lemma LeadingZero(s: string)
    ensures Value("0" + s) == Value(s) && (AllHex("0" + s) <==> AllHex(s))
  {
    ValueOfLeadingZero(s);
    assert forall i :: 0 <= i < |s| ==> ("0" + s)[i + 1] == s[i];
  }

  /** hexToBytes32: the number spelled after the prefix, modulo 2^256, in 32 big-endian bytes. Text that
      is not hexadecimal ends the program, here None. */
  method HexToBytes32(hexStr: string) returns (r: Option<seq<byte>>)
    ensures r == Bytes32OfHex(hexStr)
  {
    var s := TrimPrefix(hexStr);
    if |s| % 2 == 1 {
      LeadingZero(s);
      s := "0" + s;
    }
    var b :- Decode(s);
    ValueOfPairs(s);
    var padded := if |b| > 32 then b[|b| - 32..] else Zeros(32 - |b|) + b;
    PaddedIsLowBytes(b, padded);
    r := Some(padded);
  }

  function Bytes32OfHex(hexStr: string): Option<seq<byte>> {
    var s := TrimPrefix(hexStr);
    if AllHex(s) then Some(ToBytes(Value(s), 32)) else None
  }

  lemma Bytes32OfHexIs(hexStr: string)
    ensures Bytes32OfHex(hexStr).Some? <==> AllHex(TrimPrefix(hexStr))
    ensures Bytes32OfHex(hexStr).Some? ==>
              var b := Bytes32OfHex(hexStr).value;
              |b| == 32 && FromBytes(b) == Value(TrimPrefix(hexStr)) % Pow256(32)
  {
    FromToBytes(Value(TrimPrefix(hexStr)), 32);
  }

  lemma PaddedIsLowBytes(b: seq<byte>, padded: seq<byte>)
    requires padded == if |b| > 32 then b[|b| - 32..] else Zeros(32 - |b|) + b
    ensures padded == ToBytes(FromBytes(b), 32)
  {
    assert padded == LeftPadded(b, 32) by {
      assert |b| == 32 ==> Zeros(0) + b == b && b[0..] == b;
    }
    LeftPaddedNumber(b, 32);
    FromToBytes(FromBytes(b), 32);
    FromBytesInjective(padded, ToBytes(FromBytes(b), 32));
  }

  /** On hexadecimal text of the three lengths AddressConverter.ToBytes32 knows, the two conversions
      agree. */
  lemma ConversionsToBytes32Agree(address: string)
    requires AllHex(TrimPrefix(address)) && Bytes32Of(address).Some?
    ensures Bytes32OfHex(address) == Bytes32Of(address)
  {
    var s := TrimPrefix(address);
    if |s| == 40 {
      EVMAddressOfHex(address);
    }
    ValueOfPairs(s);
    PaddedIsLowBytes(Pairs(s), Zeros(32 - |Pairs(s)|) + Pairs(s));
  }

  /** What address texts denote: of 40 or 62 hexadecimal digits their number, of 64 their number, of which an EVM
      address keeps the last 160 bits; everything else is an error, but for 40 other characters, of which the
      digits in front count. */
  lemma AddressNumbers(address: string)
    ensures var s := TrimPrefix(address);
            && (ToEVMAddress(address).Some? <==> |s| == 40 || (|s| == 64 && AllHex(s)))
            && (Bytes32Of(address).Some? <==> |s| == 40 || ((|s| == 62 || |s| == 64) && AllHex(s)))
            && (Bytes32Of(address).Some? && AllHex(s) ==> FromBytes(Bytes32Of(address).value) == Value(s))
            && (ToEVMAddress(address).Some? && AllHex(s) ==>
                  FromBytes(ToEVMAddress(address).value) == Value(s) % Pow256(20))
  {
    var s := TrimPrefix(address);
    if AllHex(s) && (|s| == 40 || |s| == 62 || |s| == 64) {
      ValueOfPairs(s);
      ConversionsOfHex(address);
      FromBytesLeadingZeros(32 - |Pairs(s)|, Pairs(s));
      AddressNumber(Pairs(s));
    }
  }

  lemma AddressNumber(b: seq<byte>)
    ensures |b| >= 20 ==> FromBytes(BytesToAddress(b)) == FromBytes(b) % Pow256(20)
  {
    if |b| >= 20 {
      FromBytesSuffix(b, 20);
    }
  }

  lemma ConversionsOfHex(address: string)
    requires AllHex(TrimPrefix(address))
    ensures var s := TrimPrefix(address);
            && (|s| == 40 || |s| == 64 ==> ToEVMAddress(address) == Some(BytesToAddress(Pairs(s))))
            && (|s| == 40 || |s| == 62 || |s| == 64 ==>
                  Bytes32Of(address) == Some(Zeros(32 - |Pairs(s)|) + Pairs(s)))
  {
    var s := TrimPrefix(address);
    if |s| == 40 {
      EVMAddressOfHex(address);
    } else if |s| == 64 {
      LastTwenty(Pairs(s));
    }
  }

  lemma LastTwenty(b: seq<byte>)
    requires |b| == 32
    ensures BytesToAddress(b[12..]) == BytesToAddress(b)
  {
    assert b[12..][0..] == b[12..];
  }

  lemma EVMAddressOfHex(address: string)
    requires AllHex(TrimPrefix(address)) && |TrimPrefix(address)| == 40
    ensures HexToAddress(address) == Pairs(TrimPrefix(address))
  {
    FromHexOfHex(address);
  }

  lemma FromHexOfHex(s: string)
    requires AllHex(TrimPrefix(s)) && |TrimPrefix(s)| % 2 == 0
    ensures FromHex(s) == Pairs(TrimPrefix(s))
  {
    DecodePrefixOfHex(TrimPrefix(s));
  }
}
