/** A cipher, a codec and a printer that keep what is asked of each elsewhere, so nothing rests on what cannot be. */
module Instances {
  import opened Wrappers
  import opened Bytes
  import opened Noise
  import opened Compress
  import J = JsonText
  import S = Sampler
  import CapabilitySettings

  // ---- A printer ---------------------------------------------------------------------------------------

  /** JSON text is faithful: no two values print alike, and none prints the separator of a key. */
  lemma JsonTextIsFaithful()
    ensures S.Faithful(J.Print)
    ensures CapabilitySettings.Apart(J.Print)
  {
    hide J.Print, J.Visible;
    forall a, b | J.Print(a) == J.Print(b) ensures a == b {
      assert J.Print(a) + "" == J.Print(b) + "";
      J.PrintSame(a, "", b, "");
    }
    CapabilitySettings.InjectiveIsApart(J.Print);
    forall a ensures J.Print(a) != "" && S.SEPARATOR !in J.Print(a) {
      J.Begins(a);
      J.PrintIsVisible(a);
      NoSeparator(J.Print(a));
    }
  }

  lemma NoSeparator(text: string)
    requires J.Visible(text)
    ensures S.SEPARATOR !in text
  {
  }

  // ---- A cipher ----------------------------------------------------------------------------------------

  const TAG: seq<byte> := [0, 0, 0, 0, 0, 0, 0, 0, 0, 0, 0, 0, 0, 0, 0, 0]

  function Seal(n: nat, plain: seq<byte>): Option<seq<byte>>
  {
    Some(plain + TAG)
  }

  function Unseal(n: nat, sealed: seq<byte>): Option<seq<byte>>
  {
    if |sealed| < TAG_LEN then None else Some(sealed[..|sealed| - TAG_LEN])
  }

  function OpenCipher(): Aead
  {
    Aead(Seal, Unseal)
  }

  lemma ACipherIsLawful()
    ensures OpenCipher().Lawful() && forall n, p :: OpenCipher().seal(n, p).Some?
  {
  }

  // ---- A codec: each byte after a one, and a nought to end ----------------------------------------------

  function Coded(plain: seq<byte>): seq<byte>
  {
    if plain == [] then [] else [1, plain[0]] + Coded(plain[1..])
  }

  function Decoded(stream: seq<byte>): seq<byte>
  {
    if |stream| >= 2 && stream[0] == 1 then [stream[1]] + Decoded(stream[2..]) else []
  }

  predicate Ended(stream: seq<byte>)
  {
    stream == [0] || (|stream| >= 2 && stream[0] == 1 && Ended(stream[2..]))
  }

  predicate Anything(stream: seq<byte>)
  {
    true
  }

  function Nothing(s: State, flush: Flush): nat
  {
    0
  }

  function Deflating(s: State, input: seq<byte>, flush: Flush): Option<Step>
  {
    if s.emitted != Coded(s.taken) then None
    else if input != [] then
      Some(Step(s.(taken := s.taken + [input[0]], emitted := s.emitted + [1, input[0]]), 1, [1, input[0]], false))
    else if flush.Finish? then Some(Step(s.(emitted := s.emitted + [0]), 0, [0], true))
    else Some(Step(s, 0, [], false))
  }

  function Inflating(s: State, input: seq<byte>, room: nat): Option<Step>
  {
    var plain := Decoded(s.taken);
    if s.emitted < plain then
      Some(Step(s.(emitted := s.emitted + [plain[|s.emitted|]]), 0, [plain[|s.emitted|]], false))
    else if Ended(s.taken) then Some(Step(s, 0, [], true))
    else if input == [] then Some(Step(s, 0, [], false))
    else Some(Step(s.(taken := s.taken + [input[0]]), 1, [], false))
  }

  function PlainCodec(): Codec
  {
    Codec(Deflating, Inflating, 0, 0, Decoded, Ended, Anything, Nothing)
  }

  lemma {:induction false} DecodedGrows(a: seq<byte>, b: seq<byte>)
    requires a <= b
    ensures Decoded(a) <= Decoded(b)
  {
    if |a| >= 2 && a[0] == 1 {
      DecodedGrows(a[2..], b[2..]);
    }
  }

  lemma {:induction false} CodedSnoc(plain: seq<byte>, b: byte)
    ensures Coded(plain + [b]) == Coded(plain) + [1, b]
  {
    if plain == [] {
      assert Coded([b]) == [1, b] + Coded([]);
      assert plain + [b] == [b];
    } else {
      assert (plain + [b])[1..] == plain[1..] + [b];
      CodedSnoc(plain[1..], b);
    }
  }

  // What is coded says what it is of, and neither it nor any front part of it is an end.
  lemma {:induction false} CodedSays(plain: seq<byte>, p: seq<byte>)
    requires p <= Coded(plain)
    ensures Decoded(Coded(plain)) == plain && !Ended(p)
  {
    if plain != [] {
      var rest := Coded(plain)[2..];
      assert rest == Coded(plain[1..]);
      CodedSays(plain[1..], if |p| >= 2 then p[2..] else []);
    }
  }

  // With the end after it, it still does, and is an end no front part of it is.
  lemma EndSays(plain: seq<byte>, p: seq<byte>)
    requires p <= Coded(plain) + [0]
    ensures Decoded(Coded(plain) + [0]) == plain && Ended(Coded(plain) + [0])
    ensures Ended(p) ==> p == Coded(plain) + [0]
  {
    hide Coded, Decoded, Ended;
    WholeSays(plain);
    if p != Coded(plain) + [0] {
      assert p <= Coded(plain);
      CodedSays(plain, p);
    }
  }

  lemma {:induction false} WholeSays(plain: seq<byte>)
    ensures Decoded(Coded(plain) + [0]) == plain && Ended(Coded(plain) + [0])
  {
    if plain != [] {
      var all := Coded(plain) + [0];
      assert all[2..] == Coded(plain[1..]) + [0];
      WholeSays(plain[1..]);
    }
  }

  lemma DeflatingIsLawful(s: State, input: seq<byte>, flush: Flush)
    requires PlainCodec().Going(s)
    ensures PlainCodec().DeflateLaw(s, input, flush, Deflating(s, input, flush))
  {
    if s.emitted == Coded(s.taken) {
      if input != [] {
        CodedSnoc(s.taken, input[0]);
        GoingOn(s.(taken := s.taken + [input[0]], emitted := s.emitted + [1, input[0]]));
      } else {
        GoingOn(s);
        OverAtLast(s.(emitted := s.emitted + [0]));
      }
    }
  }

  lemma GoingOn(s: State)
    requires s.emitted == Coded(s.taken)
    ensures PlainCodec().Going(s) && Decoded(s.emitted) == s.taken
  {
    CodedSays(s.taken, []);
    forall p | p <= s.emitted ensures !Ended(p) {
      CodedSays(s.taken, p);
    }
  }

  lemma OverAtLast(s: State)
    requires s.emitted == Coded(s.taken) + [0]
    ensures PlainCodec().Over(s)
  {
    EndSays(s.taken, []);
    forall p | p < s.emitted ensures !Ended(p) {
      EndSays(s.taken, p);
    }
  }

  // A front part of what was read and one byte more is a front part of what was read, or all of it.
  lemma FrontOf(p: seq<byte>, taken: seq<byte>, more: byte)
    requires p < taken + [more]
    ensures p == taken || p < taken
  {
    assert p == (taken + [more])[..|p|];
    assert p == taken[..|p|];
  }

  lemma TakingOne(s: State, more: byte)
    requires PlainCodec().Decoding(s) && s.emitted == Decoded(s.taken) && !Ended(s.taken)
    ensures PlainCodec().Decoding(s.(taken := s.taken + [more]))
  {
    DecodedGrows(s.taken, s.taken + [more]);
    hide Decoded, Ended;
    forall p | p < s.taken + [more] ensures !PlainCodec().Ends(p) {
      FrontOf(p, s.taken, more);
      if p < s.taken {
        assert !PlainCodec().Ends(p);
      }
    }
  }

  lemma InflatingIsLawful(s: State, input: seq<byte>, room: nat)
    requires PlainCodec().Decoding(s) && room > 0
    ensures PlainCodec().InflateLaw(s, input, room, Inflating(s, input, room))
  {
    hide Decoded, Ended;
    if s.emitted == Decoded(s.taken) && !Ended(s.taken) && input != [] {
      TakingOne(s, input[0]);
    }
  }

  /** The codec keeps the whole contract, and never fails what it began. */
  lemma ACodecIsLawful()
    ensures PlainCodec().Lawful()
    ensures forall s: State, input, flush :: s.emitted == Coded(s.taken) ==> PlainCodec().Deflate(s, input, flush).Some?
  {
    forall a, b | a <= b ensures Decoded(a) <= Decoded(b) {
      DecodedGrows(a, b);
    }
    forall s, input, flush | PlainCodec().Going(s)
      ensures PlainCodec().DeflateLaw(s, input, flush, PlainCodec().Deflate(s, input, flush))
    {
      DeflatingIsLawful(s, input, flush);
    }
    forall s, input, room | PlainCodec().Decoding(s) && room > 0
      ensures PlainCodec().InflateLaw(s, input, room, PlainCodec().Inflate(s, input, room))
    {
      InflatingIsLawful(s, input, room);
    }
  }
}
