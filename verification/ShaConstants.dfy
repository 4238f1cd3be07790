/**
 The constants of the hash functions, which consts.rs lists, against their definition in sections 4.2 and
 5.3 of FIPS 180-4: leading bits of the fractional parts of roots of the first primes.
 */
module ShaConstants {
  import Sha256Block
  import Sha512Block
  import Sha256Engine
  import Sha512Engine

  const TWO32: nat := 0x1_0000_0000
  const TWO64: nat := 0x1_0000_0000_0000_0000
  const TWO96: nat := 0x1_0000_0000_0000_0000_0000_0000
  const TWO128: nat := 0x1_0000_0000_0000_0000_0000_0000_0000_0000
  const TWO192: nat := 0x1_0000_0000_0000_0000_0000_0000_0000_0000_0000_0000_0000_0000

  // ----- the first eighty primes -----

  ghost predicate IsPrime(n: nat) {
    n >= 2 && forall d | 1 < d < n :: n % d != 0
  }

  /** The primes in order, from 2 to 409. */
  function Prime(t: nat): nat
    requires t < 80
  {
    match t
    case 0 => 2
    case 1 => 3
    case 2 => 5
    case 3 => 7
    case 4 => 11
    case 5 => 13
    case 6 => 17
    case 7 => 19
    case 8 => 23
    case 9 => 29
    case 10 => 31
    case 11 => 37
    case 12 => 41
    case 13 => 43
    case 14 => 47
    case 15 => 53
    case 16 => 59
    case 17 => 61
    case 18 => 67
    case 19 => 71
    case 20 => 73
    case 21 => 79
    case 22 => 83
    case 23 => 89
    case 24 => 97
    case 25 => 101
    case 26 => 103
    case 27 => 107
    case 28 => 109
    case 29 => 113
    case 30 => 127
    case 31 => 131
    case 32 => 137
    case 33 => 139
    case 34 => 149
    case 35 => 151
    case 36 => 157
    case 37 => 163
    case 38 => 167
    case 39 => 173
    case 40 => 179
    case 41 => 181
    case 42 => 191
    case 43 => 193
    case 44 => 197
    case 45 => 199
    case 46 => 211
    case 47 => 223
    case 48 => 227
    case 49 => 229
    case 50 => 233
    case 51 => 239
    case 52 => 241
    case 53 => 251
    case 54 => 257
    case 55 => 263
    case 56 => 269
    case 57 => 271
    case 58 => 277
    case 59 => 281
    case 60 => 283
    case 61 => 293
    case 62 => 307
    case 63 => 311
    case 64 => 313
    case 65 => 317
    case 66 => 331
    case 67 => 337
    case 68 => 347
    case 69 => 349
    case 70 => 353
    case 71 => 359
    case 72 => 367
    case 73 => 373
    case 74 => 379
    case 75 => 383
    case 76 => 389
    case 77 => 397
    case 78 => 401
    case 79 => 409
  }

  predicate InTable(n: nat) {
    exists t | 0 <= t < 80 :: Prime(t) == n
  }

  /** Not divisible by a smaller number up to 20. */
  predicate Sieved(n: nat) {
    && (n % 2 != 0 || n <= 2)
    && (n % 3 != 0 || n <= 3)
    && (n % 5 != 0 || n <= 5)
    && (n % 7 != 0 || n <= 7)
    && (n % 11 != 0 || n <= 11)
    && (n % 13 != 0 || n <= 13)
    && (n % 17 != 0 || n <= 17)
    && (n % 19 != 0 || n <= 19)
  }

  lemma {:induction false} AtLeast(d: nat, k: nat)
    requires k > 0
    ensures d * k >= d
  {
    assert d * k == d * (k - 1) + d;
  }

  lemma {:induction false} Scaled(d: nat, k: int)
    ensures k < 0 ==> d * k <= -(d as int)
    ensures k > 0 ==> d * k >= d
  {
    if k < 0 {
      AtLeast(d, -k);
      assert d * k == -(d * (-k));
    } else if k > 0 {
      AtLeast(d, k);
    }
  }

  lemma {:induction false} Multiple(d: nat, q: nat)
    requires d > 0
    ensures (d * q) % d == 0
  {
    var k := q - (d * q) / d;
    assert d * k == (d * q) % d;
    Scaled(d, k);
  }

  lemma {:induction false} Divides(n: nat, d: nat, e: nat)
    requires d > 0 && e > 0 && n % (d * e) == 0
    ensures n % d == 0
  {
    var q := n / (d * e);
    assert n == d * e * q == d * (e * q);
    Multiple(d, e * q);
  }

  lemma {:induction false} Factors(d: nat, q: nat)
    ensures q <= 1 ==> d * q <= d
    ensures d >= 21 && q >= 21 ==> d * q >= 441
  {
    if q == 0 || q == 1 {
    } else if d >= 21 && q >= 21 {
      assert d * q >= 21 * q;
    }
  }

  /** A divisor of a number below 441 leaves one that is at most 20. */
  lemma {:induction false} SmallDivisor(n: nat, d: nat) returns (e: nat)
    requires n < 441 && 1 < d < n && n % d == 0
    ensures 1 < e <= 20 && e < n && n % e == 0
  {
    e := if d <= 20 then d else n / d;
    var q := n / d;
    assert n == d * q;
    if d > 20 {
      Factors(d, q);
      Multiple(q, d);
    }
  }

  /** A divisor up to 20 leaves a prime one. */
  lemma {:induction false} SieveExactly(n: nat)
    requires 2 <= n < 441
    ensures Sieved(n) <==> IsPrime(n)
  {
    if !IsPrime(n) {
      var d :| 1 < d < n && n % d == 0;
      var e := SmallDivisor(n, d);
      NotSieved(n, e);
    }
  }

  lemma {:induction false} NotSieved(n: nat, e: nat)
    requires 1 < e <= 20 && e < n && n % e == 0
    ensures !Sieved(n)
  {
    match e
    case 2 =>
    case 3 =>
    case 4 => Divides(n, 2, 2);
    case 5 =>
    case 6 => Divides(n, 2, 3);
    case 7 =>
    case 8 => Divides(n, 2, 4);
    case 9 => Divides(n, 3, 3);
    case 10 => Divides(n, 2, 5);
    case 11 =>
    case 12 => Divides(n, 2, 6);
    case 13 =>
    case 14 => Divides(n, 2, 7);
    case 15 => Divides(n, 3, 5);
    case 16 => Divides(n, 2, 8);
    case 17 =>
    case 18 => Divides(n, 2, 9);
    case 19 =>
    case 20 => Divides(n, 2, 10);
  }

  lemma {:induction false} SievedFrom2(n: nat)
    requires 2 <= n < 34 && Sieved(n)
    ensures n in {2, 3, 5, 7, 11, 13, 17, 19, 23, 29, 31}
  {
  }

  lemma {:induction false} SievedFrom34(n: nat)
    requires 34 <= n < 66 && Sieved(n)
    ensures n in {37, 41, 43, 47, 53, 59, 61}
  {
  }

  lemma {:induction false} SievedFrom66(n: nat)
    requires 66 <= n < 98 && Sieved(n)
    ensures n in {67, 71, 73, 79, 83, 89, 97}
  {
  }

  lemma {:induction false} SievedFrom98(n: nat)
    requires 98 <= n < 130 && Sieved(n)
    ensures n in {101, 103, 107, 109, 113, 127}
  {
  }

  lemma {:induction false} SievedFrom130(n: nat)
    requires 130 <= n < 162 && Sieved(n)
    ensures n in {131, 137, 139, 149, 151, 157}
  {
  }

  lemma {:induction false} SievedFrom162(n: nat)
    requires 162 <= n < 194 && Sieved(n)
    ensures n in {163, 167, 173, 179, 181, 191, 193}
  {
  }

  lemma {:induction false} SievedFrom194(n: nat)
    requires 194 <= n < 226 && Sieved(n)
    ensures n in {197, 199, 211, 223}
  {
  }

  lemma {:induction false} SievedFrom226(n: nat)
    requires 226 <= n < 258 && Sieved(n)
    ensures n in {227, 229, 233, 239, 241, 251, 257}
  {
  }

  lemma {:induction false} SievedFrom258(n: nat)
    requires 258 <= n < 290 && Sieved(n)
    ensures n in {263, 269, 271, 277, 281, 283}
  {
  }

  lemma {:induction false} SievedFrom290(n: nat)
    requires 290 <= n < 322 && Sieved(n)
    ensures n in {293, 307, 311, 313, 317}
  {
  }

  lemma {:induction false} SievedFrom322(n: nat)
    requires 322 <= n < 354 && Sieved(n)
    ensures n in {331, 337, 347, 349, 353}
  {
  }

  lemma {:induction false} SievedFrom354(n: nat)
    requires 354 <= n < 386 && Sieved(n)
    ensures n in {359, 367, 373, 379, 383}
  {
  }

  lemma {:induction false} SievedFrom386(n: nat)
    requires 386 <= n < 410 && Sieved(n)
    ensures n in {389, 397, 401, 409}
  {
  }

  lemma {:induction false} SievedPrimes0(t: nat)
    requires 0 <= t < 16
    ensures 2 <= Prime(t) <= 409 && Sieved(Prime(t))
    ensures t < 79 ==> Prime(t) < Prime(t + 1)
  {
    match t
    case 0 => assert Prime(0) == 2 < Prime(1) && Sieved(2);
    case 1 => assert Prime(1) == 3 < Prime(2) && Sieved(3);
    case 2 => assert Prime(2) == 5 < Prime(3) && Sieved(5);
    case 3 => assert Prime(3) == 7 < Prime(4) && Sieved(7);
    case 4 => assert Prime(4) == 11 < Prime(5) && Sieved(11);
    case 5 => assert Prime(5) == 13 < Prime(6) && Sieved(13);
    case 6 => assert Prime(6) == 17 < Prime(7) && Sieved(17);
    case 7 => assert Prime(7) == 19 < Prime(8) && Sieved(19);
    case 8 => assert Prime(8) == 23 < Prime(9) && Sieved(23);
    case 9 => assert Prime(9) == 29 < Prime(10) && Sieved(29);
    case 10 => assert Prime(10) == 31 < Prime(11) && Sieved(31);
    case 11 => assert Prime(11) == 37 < Prime(12) && Sieved(37);
    case 12 => assert Prime(12) == 41 < Prime(13) && Sieved(41);
    case 13 => assert Prime(13) == 43 < Prime(14) && Sieved(43);
    case 14 => assert Prime(14) == 47 < Prime(15) && Sieved(47);
    case 15 => assert Prime(15) == 53 < Prime(16) && Sieved(53);
  }

  lemma {:induction false} SievedPrimes16(t: nat)
    requires 16 <= t < 32
    ensures 2 <= Prime(t) <= 409 && Sieved(Prime(t))
    ensures t < 79 ==> Prime(t) < Prime(t + 1)
  {
    match t
    case 16 => assert Prime(16) == 59 < Prime(17) && Sieved(59);
    case 17 => assert Prime(17) == 61 < Prime(18) && Sieved(61);
    case 18 => assert Prime(18) == 67 < Prime(19) && Sieved(67);
    case 19 => assert Prime(19) == 71 < Prime(20) && Sieved(71);
    case 20 => assert Prime(20) == 73 < Prime(21) && Sieved(73);
    case 21 => assert Prime(21) == 79 < Prime(22) && Sieved(79);
    case 22 => assert Prime(22) == 83 < Prime(23) && Sieved(83);
    case 23 => assert Prime(23) == 89 < Prime(24) && Sieved(89);
    case 24 => assert Prime(24) == 97 < Prime(25) && Sieved(97);
    case 25 => assert Prime(25) == 101 < Prime(26) && Sieved(101);
    case 26 => assert Prime(26) == 103 < Prime(27) && Sieved(103);
    case 27 => assert Prime(27) == 107 < Prime(28) && Sieved(107);
    case 28 => assert Prime(28) == 109 < Prime(29) && Sieved(109);
    case 29 => assert Prime(29) == 113 < Prime(30) && Sieved(113);
    case 30 => assert Prime(30) == 127 < Prime(31) && Sieved(127);
    case 31 => assert Prime(31) == 131 < Prime(32) && Sieved(131);
  }

  lemma {:induction false} SievedPrimes32(t: nat)
    requires 32 <= t < 48
    ensures 2 <= Prime(t) <= 409 && Sieved(Prime(t))
    ensures t < 79 ==> Prime(t) < Prime(t + 1)
  {
    match t
    case 32 => assert Prime(32) == 137 < Prime(33) && Sieved(137);
    case 33 => assert Prime(33) == 139 < Prime(34) && Sieved(139);
    case 34 => assert Prime(34) == 149 < Prime(35) && Sieved(149);
    case 35 => assert Prime(35) == 151 < Prime(36) && Sieved(151);
    case 36 => assert Prime(36) == 157 < Prime(37) && Sieved(157);
    case 37 => assert Prime(37) == 163 < Prime(38) && Sieved(163);
    case 38 => assert Prime(38) == 167 < Prime(39) && Sieved(167);
    case 39 => assert Prime(39) == 173 < Prime(40) && Sieved(173);
    case 40 => assert Prime(40) == 179 < Prime(41) && Sieved(179);
    case 41 => assert Prime(41) == 181 < Prime(42) && Sieved(181);
    case 42 => assert Prime(42) == 191 < Prime(43) && Sieved(191);
    case 43 => assert Prime(43) == 193 < Prime(44) && Sieved(193);
    case 44 => assert Prime(44) == 197 < Prime(45) && Sieved(197);
    case 45 => assert Prime(45) == 199 < Prime(46) && Sieved(199);
    case 46 => assert Prime(46) == 211 < Prime(47) && Sieved(211);
    case 47 => assert Prime(47) == 223 < Prime(48) && Sieved(223);
  }

  lemma {:induction false} SievedPrimes48(t: nat)
    requires 48 <= t < 64
    ensures 2 <= Prime(t) <= 409 && Sieved(Prime(t))
    ensures t < 79 ==> Prime(t) < Prime(t + 1)
  {
    match t
    case 48 => assert Prime(48) == 227 < Prime(49) && Sieved(227);
    case 49 => assert Prime(49) == 229 < Prime(50) && Sieved(229);
    case 50 => assert Prime(50) == 233 < Prime(51) && Sieved(233);
    case 51 => assert Prime(51) == 239 < Prime(52) && Sieved(239);
    case 52 => assert Prime(52) == 241 < Prime(53) && Sieved(241);
    case 53 => assert Prime(53) == 251 < Prime(54) && Sieved(251);
    case 54 => assert Prime(54) == 257 < Prime(55) && Sieved(257);
    case 55 => assert Prime(55) == 263 < Prime(56) && Sieved(263);
    case 56 => assert Prime(56) == 269 < Prime(57) && Sieved(269);
    case 57 => assert Prime(57) == 271 < Prime(58) && Sieved(271);
    case 58 => assert Prime(58) == 277 < Prime(59) && Sieved(277);
    case 59 => assert Prime(59) == 281 < Prime(60) && Sieved(281);
    case 60 => assert Prime(60) == 283 < Prime(61) && Sieved(283);
    case 61 => assert Prime(61) == 293 < Prime(62) && Sieved(293);
    case 62 => assert Prime(62) == 307 < Prime(63) && Sieved(307);
    case 63 => assert Prime(63) == 311 < Prime(64) && Sieved(311);
  }

  lemma {:induction false} SievedPrimes64(t: nat)
    requires 64 <= t < 80
    ensures 2 <= Prime(t) <= 409 && Sieved(Prime(t))
    ensures t < 79 ==> Prime(t) < Prime(t + 1)
  {
    match t
    case 64 => assert Prime(64) == 313 < Prime(65) && Sieved(313);
    case 65 => assert Prime(65) == 317 < Prime(66) && Sieved(317);
    case 66 => assert Prime(66) == 331 < Prime(67) && Sieved(331);
    case 67 => assert Prime(67) == 337 < Prime(68) && Sieved(337);
    case 68 => assert Prime(68) == 347 < Prime(69) && Sieved(347);
    case 69 => assert Prime(69) == 349 < Prime(70) && Sieved(349);
    case 70 => assert Prime(70) == 353 < Prime(71) && Sieved(353);
    case 71 => assert Prime(71) == 359 < Prime(72) && Sieved(359);
    case 72 => assert Prime(72) == 367 < Prime(73) && Sieved(367);
    case 73 => assert Prime(73) == 373 < Prime(74) && Sieved(373);
    case 74 => assert Prime(74) == 379 < Prime(75) && Sieved(379);
    case 75 => assert Prime(75) == 383 < Prime(76) && Sieved(383);
    case 76 => assert Prime(76) == 389 < Prime(77) && Sieved(389);
    case 77 => assert Prime(77) == 397 < Prime(78) && Sieved(397);
    case 78 => assert Prime(78) == 401 < Prime(79) && Sieved(401);
    case 79 => assert Prime(79) == 409 && Sieved(409);
  }

  lemma {:induction false} TableSieved(t: nat)
    requires t < 80
    ensures 2 <= Prime(t) <= 409 && Sieved(Prime(t))
    ensures t < 79 ==> Prime(t) < Prime(t + 1)
  {
    hide *;
    if t < 16 {
      SievedPrimes0(t);
    } else if t < 32 {
      SievedPrimes16(t);
    } else if t < 48 {
      SievedPrimes32(t);
    } else if t < 64 {
      SievedPrimes48(t);
    } else {
      SievedPrimes64(t);
    }
  }

  /** The table has exactly the primes up to 409, in order. */
  lemma {:induction false} PrimesExactly(n: nat)
    requires n <= 409
    ensures IsPrime(n) <==> InTable(n)
    ensures forall t | 0 <= t < 79 :: Prime(t) < Prime(t + 1)
  {
    hide Prime, Sieved;
    forall t | 0 <= t < 80
      ensures 2 <= Prime(t) <= 409 && IsPrime(Prime(t))
      ensures t < 79 ==> Prime(t) < Prime(t + 1)
    {
      TableSieved(t);
      SieveExactly(Prime(t));
    }
    if IsPrime(n) {
      SieveExactly(n);
      var t := SievedInTable(n);
    }
  }

  lemma {:induction false} Listed0(n: nat) returns (t: nat)
    requires n in {2, 3, 5, 7, 11, 13, 17, 19, 23, 29, 31, 37, 41, 43, 47, 53}
    ensures t < 80 && Prime(t) == n
  {
    match n
    case 2 => t := 0;
    case 3 => t := 1;
    case 5 => t := 2;
    case 7 => t := 3;
    case 11 => t := 4;
    case 13 => t := 5;
    case 17 => t := 6;
    case 19 => t := 7;
    case 23 => t := 8;
    case 29 => t := 9;
    case 31 => t := 10;
    case 37 => t := 11;
    case 41 => t := 12;
    case 43 => t := 13;
    case 47 => t := 14;
    case _ => t := 15;
  }

  lemma {:induction false} Listed16(n: nat) returns (t: nat)
    requires n in {59, 61, 67, 71, 73, 79, 83, 89, 97, 101, 103, 107, 109, 113, 127, 131}
    ensures t < 80 && Prime(t) == n
  {
    match n
    case 59 => t := 16;
    case 61 => t := 17;
    case 67 => t := 18;
    case 71 => t := 19;
    case 73 => t := 20;
    case 79 => t := 21;
    case 83 => t := 22;
    case 89 => t := 23;
    case 97 => t := 24;
    case 101 => t := 25;
    case 103 => t := 26;
    case 107 => t := 27;
    case 109 => t := 28;
    case 113 => t := 29;
    case 127 => t := 30;
    case _ => t := 31;
  }

  lemma {:induction false} Listed32(n: nat) returns (t: nat)
    requires n in {137, 139, 149, 151, 157, 163, 167, 173, 179, 181, 191, 193, 197, 199, 211, 223}
    ensures t < 80 && Prime(t) == n
  {
    match n
    case 137 => t := 32;
    case 139 => t := 33;
    case 149 => t := 34;
    case 151 => t := 35;
    case 157 => t := 36;
    case 163 => t := 37;
    case 167 => t := 38;
    case 173 => t := 39;
    case 179 => t := 40;
    case 181 => t := 41;
    case 191 => t := 42;
    case 193 => t := 43;
    case 197 => t := 44;
    case 199 => t := 45;
    case 211 => t := 46;
    case _ => t := 47;
  }

  lemma {:induction false} Listed48(n: nat) returns (t: nat)
    requires n in {227, 229, 233, 239, 241, 251, 257, 263, 269, 271, 277, 281, 283, 293, 307, 311}
    ensures t < 80 && Prime(t) == n
  {
    match n
    case 227 => t := 48;
    case 229 => t := 49;
    case 233 => t := 50;
    case 239 => t := 51;
    case 241 => t := 52;
    case 251 => t := 53;
    case 257 => t := 54;
    case 263 => t := 55;
    case 269 => t := 56;
    case 271 => t := 57;
    case 277 => t := 58;
    case 281 => t := 59;
    case 283 => t := 60;
    case 293 => t := 61;
    case 307 => t := 62;
    case _ => t := 63;
  }

  lemma {:induction false} Listed64(n: nat) returns (t: nat)
    requires n in {313, 317, 331, 337, 347, 349, 353, 359, 367, 373, 379, 383, 389, 397, 401, 409}
    ensures t < 80 && Prime(t) == n
  {
    match n
    case 313 => t := 64;
    case 317 => t := 65;
    case 331 => t := 66;
    case 337 => t := 67;
    case 347 => t := 68;
    case 349 => t := 69;
    case 353 => t := 70;
    case 359 => t := 71;
    case 367 => t := 72;
    case 373 => t := 73;
    case 379 => t := 74;
    case 383 => t := 75;
    case 389 => t := 76;
    case 397 => t := 77;
    case 401 => t := 78;
    case _ => t := 79;
  }

  lemma {:induction false} SievedInTable(n: nat) returns (t: nat)
    requires 2 <= n <= 409 && Sieved(n)
    ensures t < 80 && Prime(t) == n
  {
    hide *;
    if n < 34 {
      SievedFrom2(n);
      t := Listed0(n);
    } else if n < 66 {
      SievedFrom34(n);
      if n <= 53 {
        t := Listed0(n);
      } else {
        t := Listed16(n);
      }
    } else if n < 98 {
      SievedFrom66(n);
      t := Listed16(n);
    } else if n < 130 {
      SievedFrom98(n);
      t := Listed16(n);
    } else if n < 162 {
      SievedFrom130(n);
      if n <= 131 {
        t := Listed16(n);
      } else {
        t := Listed32(n);
      }
    } else if n < 194 {
      SievedFrom162(n);
      t := Listed32(n);
    } else if n < 226 {
      SievedFrom194(n);
      t := Listed32(n);
    } else if n < 258 {
      SievedFrom226(n);
      t := Listed48(n);
    } else if n < 290 {
      SievedFrom258(n);
      t := Listed48(n);
    } else if n < 322 {
      SievedFrom290(n);
      if n <= 311 {
        t := Listed48(n);
      } else {
        t := Listed64(n);
      }
    } else if n < 354 {
      SievedFrom322(n);
      t := Listed64(n);
    } else if n < 386 {
      SievedFrom354(n);
      t := Listed64(n);
    } else {
      SievedFrom386(n);
      t := Listed64(n);
    }
  }

  // ----- roots -----

  /** `n` is the whole part of `scale` times the cube root of `p`, where `cube` is the cube of `scale`. */
  predicate CubeRoot(n: nat, p: nat, cube: nat) {
    n * n * n <= p * cube < (n + 1) * (n + 1) * (n + 1)
  }

  predicate SquareRoot(n: nat, p: nat, square: nat) {
    n * n <= p * square < (n + 1) * (n + 1)
  }

  lemma {:induction false} CubesRise(m: nat, n: nat)
    requires m <= n
    ensures m * m * m <= n * n * n
  {
    assert m * m <= n * n;
    assert m * m * m <= n * n * m <= n * n * n;
  }

  /** So a constant that is such a root modulo its width can have no other value. */
  lemma {:induction false} RootsUnique(n: nat, m: nat, p: nat, power: nat)
    ensures CubeRoot(n, p, power) && CubeRoot(m, p, power) ==> n == m
    ensures SquareRoot(n, p, power) && SquareRoot(m, p, power) ==> n == m
  {
    if n < m {
      CubesRise(n + 1, m);
      assert (n + 1) * (n + 1) <= m * m;
    } else if m < n {
      CubesRise(m + 1, n);
      assert (m + 1) * (m + 1) <= n * n;
    }
  }

  lemma {:induction false} K32From0(t: nat) returns (n: nat)
    requires 0 <= t < 8
    ensures CubeRoot(n, Prime(t), TWO96) && Sha256Block.K32(t) == n % TWO32
  {
    match t
    case 0 =>
      n := 0x1_428a_2f98;
      assert CubeRoot(0x1_428a_2f98, 2, TWO96);
    case 1 =>
      n := 0x1_7137_4491;
      assert CubeRoot(0x1_7137_4491, 3, TWO96);
    case 2 =>
      n := 0x1_b5c0_fbcf;
      assert CubeRoot(0x1_b5c0_fbcf, 5, TWO96);
    case 3 =>
      n := 0x1_e9b5_dba5;
      assert CubeRoot(0x1_e9b5_dba5, 7, TWO96);
    case 4 =>
      n := 0x2_3956_c25b;
      assert CubeRoot(0x2_3956_c25b, 11, TWO96);
    case 5 =>
      n := 0x2_59f1_11f1;
      assert CubeRoot(0x2_59f1_11f1, 13, TWO96);
    case 6 =>
      n := 0x2_923f_82a4;
      assert CubeRoot(0x2_923f_82a4, 17, TWO96);
    case 7 =>
      n := 0x2_ab1c_5ed5;
      assert CubeRoot(0x2_ab1c_5ed5, 19, TWO96);
  }

  lemma {:induction false} K32From8(t: nat) returns (n: nat)
    requires 8 <= t < 16
    ensures CubeRoot(n, Prime(t), TWO96) && Sha256Block.K32(t) == n % TWO32
  {
    match t
    case 8 =>
      n := 0x2_d807_aa98;
      assert CubeRoot(0x2_d807_aa98, 23, TWO96);
    case 9 =>
      n := 0x3_1283_5b01;
      assert CubeRoot(0x3_1283_5b01, 29, TWO96);
    case 10 =>
      n := 0x3_2431_85be;
      assert CubeRoot(0x3_2431_85be, 31, TWO96);
    case 11 =>
      n := 0x3_550c_7dc3;
      assert CubeRoot(0x3_550c_7dc3, 37, TWO96);
    case 12 =>
      n := 0x3_72be_5d74;
      assert CubeRoot(0x3_72be_5d74, 41, TWO96);
    case 13 =>
      n := 0x3_80de_b1fe;
      assert CubeRoot(0x3_80de_b1fe, 43, TWO96);
    case 14 =>
      n := 0x3_9bdc_06a7;
      assert CubeRoot(0x3_9bdc_06a7, 47, TWO96);
    case 15 =>
      n := 0x3_c19b_f174;
      assert CubeRoot(0x3_c19b_f174, 53, TWO96);
  }

  lemma {:induction false} K32From16(t: nat) returns (n: nat)
    requires 16 <= t < 24
    ensures CubeRoot(n, Prime(t), TWO96) && Sha256Block.K32(t) == n % TWO32
  {
    match t
    case 16 =>
      n := 0x3_e49b_69c1;
      assert CubeRoot(0x3_e49b_69c1, 59, TWO96);
    case 17 =>
      n := 0x3_efbe_4786;
      assert CubeRoot(0x3_efbe_4786, 61, TWO96);
    case 18 =>
      n := 0x4_0fc1_9dc6;
      assert CubeRoot(0x4_0fc1_9dc6, 67, TWO96);
    case 19 =>
      n := 0x4_240c_a1cc;
      assert CubeRoot(0x4_240c_a1cc, 71, TWO96);
    case 20 =>
      n := 0x4_2de9_2c6f;
      assert CubeRoot(0x4_2de9_2c6f, 73, TWO96);
    case 21 =>
      n := 0x4_4a74_84aa;
      assert CubeRoot(0x4_4a74_84aa, 79, TWO96);
    case 22 =>
      n := 0x4_5cb0_a9dc;
      assert CubeRoot(0x4_5cb0_a9dc, 83, TWO96);
    case 23 =>
      n := 0x4_76f9_88da;
      assert CubeRoot(0x4_76f9_88da, 89, TWO96);
  }

  lemma {:induction false} K32From24(t: nat) returns (n: nat)
    requires 24 <= t < 32
    ensures CubeRoot(n, Prime(t), TWO96) && Sha256Block.K32(t) == n % TWO32
  {
    match t
    case 24 =>
      n := 0x4_983e_5152;
      assert CubeRoot(0x4_983e_5152, 97, TWO96);
    case 25 =>
      n := 0x4_a831_c66d;
      assert CubeRoot(0x4_a831_c66d, 101, TWO96);
    case 26 =>
      n := 0x4_b003_27c8;
      assert CubeRoot(0x4_b003_27c8, 103, TWO96);
    case 27 =>
      n := 0x4_bf59_7fc7;
      assert CubeRoot(0x4_bf59_7fc7, 107, TWO96);
    case 28 =>
      n := 0x4_c6e0_0bf3;
      assert CubeRoot(0x4_c6e0_0bf3, 109, TWO96);
    case 29 =>
      n := 0x4_d5a7_9147;
      assert CubeRoot(0x4_d5a7_9147, 113, TWO96);
    case 30 =>
      n := 0x5_06ca_6351;
      assert CubeRoot(0x5_06ca_6351, 127, TWO96);
    case 31 =>
      n := 0x5_1429_2967;
      assert CubeRoot(0x5_1429_2967, 131, TWO96);
  }

  lemma {:induction false} K32From32(t: nat) returns (n: nat)
    requires 32 <= t < 40
    ensures CubeRoot(n, Prime(t), TWO96) && Sha256Block.K32(t) == n % TWO32
  {
    match t
    case 32 =>
      n := 0x5_27b7_0a85;
      assert CubeRoot(0x5_27b7_0a85, 137, TWO96);
    case 33 =>
      n := 0x5_2e1b_2138;
      assert CubeRoot(0x5_2e1b_2138, 139, TWO96);
    case 34 =>
      n := 0x5_4d2c_6dfc;
      assert CubeRoot(0x5_4d2c_6dfc, 149, TWO96);
    case 35 =>
      n := 0x5_5338_0d13;
      assert CubeRoot(0x5_5338_0d13, 151, TWO96);
    case 36 =>
      n := 0x5_650a_7354;
      assert CubeRoot(0x5_650a_7354, 157, TWO96);
    case 37 =>
      n := 0x5_766a_0abb;
      assert CubeRoot(0x5_766a_0abb, 163, TWO96);
    case 38 =>
      n := 0x5_81c2_c92e;
      assert CubeRoot(0x5_81c2_c92e, 167, TWO96);
    case 39 =>
      n := 0x5_9272_2c85;
      assert CubeRoot(0x5_9272_2c85, 173, TWO96);
  }

  lemma {:induction false} K32From40(t: nat) returns (n: nat)
    requires 40 <= t < 48
    ensures CubeRoot(n, Prime(t), TWO96) && Sha256Block.K32(t) == n % TWO32
  {
    match t
    case 40 =>
      n := 0x5_a2bf_e8a1;
      assert CubeRoot(0x5_a2bf_e8a1, 179, TWO96);
    case 41 =>
      n := 0x5_a81a_664b;
      assert CubeRoot(0x5_a81a_664b, 181, TWO96);
    case 42 =>
      n := 0x5_c24b_8b70;
      assert CubeRoot(0x5_c24b_8b70, 191, TWO96);
    case 43 =>
      n := 0x5_c76c_51a3;
      assert CubeRoot(0x5_c76c_51a3, 193, TWO96);
    case 44 =>
      n := 0x5_d192_e819;
      assert CubeRoot(0x5_d192_e819, 197, TWO96);
    case 45 =>
      n := 0x5_d699_0624;
      assert CubeRoot(0x5_d699_0624, 199, TWO96);
    case 46 =>
      n := 0x5_f40e_3585;
      assert CubeRoot(0x5_f40e_3585, 211, TWO96);
    case 47 =>
      n := 0x6_106a_a070;
      assert CubeRoot(0x6_106a_a070, 223, TWO96);
  }

  lemma {:induction false} K32From48(t: nat) returns (n: nat)
    requires 48 <= t < 56
    ensures CubeRoot(n, Prime(t), TWO96) && Sha256Block.K32(t) == n % TWO32
  {
    match t
    case 48 =>
      n := 0x6_19a4_c116;
      assert CubeRoot(0x6_19a4_c116, 227, TWO96);
    case 49 =>
      n := 0x6_1e37_6c08;
      assert CubeRoot(0x6_1e37_6c08, 229, TWO96);
    case 50 =>
      n := 0x6_2748_774c;
      assert CubeRoot(0x6_2748_774c, 233, TWO96);
    case 51 =>
      n := 0x6_34b0_bcb5;
      assert CubeRoot(0x6_34b0_bcb5, 239, TWO96);
    case 52 =>
      n := 0x6_391c_0cb3;
      assert CubeRoot(0x6_391c_0cb3, 241, TWO96);
    case 53 =>
      n := 0x6_4ed8_aa4a;
      assert CubeRoot(0x6_4ed8_aa4a, 251, TWO96);
    case 54 =>
      n := 0x6_5b9c_ca4f;
      assert CubeRoot(0x6_5b9c_ca4f, 257, TWO96);
    case 55 =>
      n := 0x6_682e_6ff3;
      assert CubeRoot(0x6_682e_6ff3, 263, TWO96);
  }

  lemma {:induction false} K32From56(t: nat) returns (n: nat)
    requires 56 <= t < 64
    ensures CubeRoot(n, Prime(t), TWO96) && Sha256Block.K32(t) == n % TWO32
  {
    match t
    case 56 =>
      n := 0x6_748f_82ee;
      assert CubeRoot(0x6_748f_82ee, 269, TWO96);
    case 57 =>
      n := 0x6_78a5_636f;
      assert CubeRoot(0x6_78a5_636f, 271, TWO96);
    case 58 =>
      n := 0x6_84c8_7814;
      assert CubeRoot(0x6_84c8_7814, 277, TWO96);
    case 59 =>
      n := 0x6_8cc7_0208;
      assert CubeRoot(0x6_8cc7_0208, 281, TWO96);
    case 60 =>
      n := 0x6_90be_fffa;
      assert CubeRoot(0x6_90be_fffa, 283, TWO96);
    case 61 =>
      n := 0x6_a450_6ceb;
      assert CubeRoot(0x6_a450_6ceb, 293, TWO96);
    case 62 =>
      n := 0x6_bef9_a3f7;
      assert CubeRoot(0x6_bef9_a3f7, 307, TWO96);
    case 63 =>
      n := 0x6_c671_78f2;
      assert CubeRoot(0x6_c671_78f2, 311, TWO96);
  }

  /** Section 4.2.2: constant `t` is the first 32 bits of the fractional part of the cube root of prime `t`. */
  lemma {:induction false} K32IsCubeRoot(t: nat) returns (n: nat)
    requires t < 64
    ensures CubeRoot(n, Prime(t), TWO96) && Sha256Block.K32(t) == n % TWO32
  {
    hide *;
    if t < 8 {
      n := K32From0(t);
    } else if t < 16 {
      n := K32From8(t);
    } else if t < 24 {
      n := K32From16(t);
    } else if t < 32 {
      n := K32From24(t);
    } else if t < 40 {
      n := K32From32(t);
    } else if t < 48 {
      n := K32From40(t);
    } else if t < 56 {
      n := K32From48(t);
    } else {
      n := K32From56(t);
    }
  }

  lemma {:induction false} K64From0(t: nat) returns (n: nat)
    requires 0 <= t < 8
    ensures CubeRoot(n, Prime(t), TWO192) && Sha512Block.K64(t) == n % TWO64
  {
    match t
    case 0 =>
      n := 0x1_428a_2f98_d728_ae22;
      assert CubeRoot(0x1_428a_2f98_d728_ae22, 2, TWO192);
    case 1 =>
      n := 0x1_7137_4491_23ef_65cd;
      assert CubeRoot(0x1_7137_4491_23ef_65cd, 3, TWO192);
    case 2 =>
      n := 0x1_b5c0_fbcf_ec4d_3b2f;
      assert CubeRoot(0x1_b5c0_fbcf_ec4d_3b2f, 5, TWO192);
    case 3 =>
      n := 0x1_e9b5_dba5_8189_dbbc;
      assert CubeRoot(0x1_e9b5_dba5_8189_dbbc, 7, TWO192);
    case 4 =>
      n := 0x2_3956_c25b_f348_b538;
      assert CubeRoot(0x2_3956_c25b_f348_b538, 11, TWO192);
    case 5 =>
      n := 0x2_59f1_11f1_b605_d019;
      assert CubeRoot(0x2_59f1_11f1_b605_d019, 13, TWO192);
    case 6 =>
      n := 0x2_923f_82a4_af19_4f9b;
      assert CubeRoot(0x2_923f_82a4_af19_4f9b, 17, TWO192);
    case 7 =>
      n := 0x2_ab1c_5ed5_da6d_8118;
      assert CubeRoot(0x2_ab1c_5ed5_da6d_8118, 19, TWO192);
  }

  lemma {:induction false} K64From8(t: nat) returns (n: nat)
    requires 8 <= t < 16
    ensures CubeRoot(n, Prime(t), TWO192) && Sha512Block.K64(t) == n % TWO64
  {
    match t
    case 8 =>
      n := 0x2_d807_aa98_a303_0242;
      assert CubeRoot(0x2_d807_aa98_a303_0242, 23, TWO192);
    case 9 =>
      n := 0x3_1283_5b01_4570_6fbe;
      assert CubeRoot(0x3_1283_5b01_4570_6fbe, 29, TWO192);
    case 10 =>
      n := 0x3_2431_85be_4ee4_b28c;
      assert CubeRoot(0x3_2431_85be_4ee4_b28c, 31, TWO192);
    case 11 =>
      n := 0x3_550c_7dc3_d5ff_b4e2;
      assert CubeRoot(0x3_550c_7dc3_d5ff_b4e2, 37, TWO192);
    case 12 =>
      n := 0x3_72be_5d74_f27b_896f;
      assert CubeRoot(0x3_72be_5d74_f27b_896f, 41, TWO192);
    case 13 =>
      n := 0x3_80de_b1fe_3b16_96b1;
      assert CubeRoot(0x3_80de_b1fe_3b16_96b1, 43, TWO192);
    case 14 =>
      n := 0x3_9bdc_06a7_25c7_1235;
      assert CubeRoot(0x3_9bdc_06a7_25c7_1235, 47, TWO192);
    case 15 =>
      n := 0x3_c19b_f174_cf69_2694;
      assert CubeRoot(0x3_c19b_f174_cf69_2694, 53, TWO192);
  }

  lemma {:induction false} K64From16(t: nat) returns (n: nat)
    requires 16 <= t < 24
    ensures CubeRoot(n, Prime(t), TWO192) && Sha512Block.K64(t) == n % TWO64
  {
    match t
    case 16 =>
      n := 0x3_e49b_69c1_9ef1_4ad2;
      assert CubeRoot(0x3_e49b_69c1_9ef1_4ad2, 59, TWO192);
    case 17 =>
      n := 0x3_efbe_4786_384f_25e3;
      assert CubeRoot(0x3_efbe_4786_384f_25e3, 61, TWO192);
    case 18 =>
      n := 0x4_0fc1_9dc6_8b8c_d5b5;
      assert CubeRoot(0x4_0fc1_9dc6_8b8c_d5b5, 67, TWO192);
    case 19 =>
      n := 0x4_240c_a1cc_77ac_9c65;
      assert CubeRoot(0x4_240c_a1cc_77ac_9c65, 71, TWO192);
    case 20 =>
      n := 0x4_2de9_2c6f_592b_0275;
      assert CubeRoot(0x4_2de9_2c6f_592b_0275, 73, TWO192);
    case 21 =>
      n := 0x4_4a74_84aa_6ea6_e483;
      assert CubeRoot(0x4_4a74_84aa_6ea6_e483, 79, TWO192);
    case 22 =>
      n := 0x4_5cb0_a9dc_bd41_fbd4;
      assert CubeRoot(0x4_5cb0_a9dc_bd41_fbd4, 83, TWO192);
    case 23 =>
      n := 0x4_76f9_88da_8311_53b5;
      assert CubeRoot(0x4_76f9_88da_8311_53b5, 89, TWO192);
  }

  lemma {:induction false} K64From24(t: nat) returns (n: nat)
    requires 24 <= t < 32
    ensures CubeRoot(n, Prime(t), TWO192) && Sha512Block.K64(t) == n % TWO64
  {
    match t
    case 24 =>
      n := 0x4_983e_5152_ee66_dfab;
      assert CubeRoot(0x4_983e_5152_ee66_dfab, 97, TWO192);
    case 25 =>
      n := 0x4_a831_c66d_2db4_3210;
      assert CubeRoot(0x4_a831_c66d_2db4_3210, 101, TWO192);
    case 26 =>
      n := 0x4_b003_27c8_98fb_213f;
      assert CubeRoot(0x4_b003_27c8_98fb_213f, 103, TWO192);
    case 27 =>
      n := 0x4_bf59_7fc7_beef_0ee4;
      assert CubeRoot(0x4_bf59_7fc7_beef_0ee4, 107, TWO192);
    case 28 =>
      n := 0x4_c6e0_0bf3_3da8_8fc2;
      assert CubeRoot(0x4_c6e0_0bf3_3da8_8fc2, 109, TWO192);
    case 29 =>
      n := 0x4_d5a7_9147_930a_a725;
      assert CubeRoot(0x4_d5a7_9147_930a_a725, 113, TWO192);
    case 30 =>
      n := 0x5_06ca_6351_e003_826f;
      assert CubeRoot(0x5_06ca_6351_e003_826f, 127, TWO192);
    case 31 =>
      n := 0x5_1429_2967_0a0e_6e70;
      assert CubeRoot(0x5_1429_2967_0a0e_6e70, 131, TWO192);
  }

  lemma {:induction false} K64From32(t: nat) returns (n: nat)
    requires 32 <= t < 40
    ensures CubeRoot(n, Prime(t), TWO192) && Sha512Block.K64(t) == n % TWO64
  {
    match t
    case 32 =>
      n := 0x5_27b7_0a85_46d2_2ffc;
      assert CubeRoot(0x5_27b7_0a85_46d2_2ffc, 137, TWO192);
    case 33 =>
      n := 0x5_2e1b_2138_5c26_c926;
      assert CubeRoot(0x5_2e1b_2138_5c26_c926, 139, TWO192);
    case 34 =>
      n := 0x5_4d2c_6dfc_5ac4_2aed;
      assert CubeRoot(0x5_4d2c_6dfc_5ac4_2aed, 149, TWO192);
    case 35 =>
      n := 0x5_5338_0d13_9d95_b3df;
      assert CubeRoot(0x5_5338_0d13_9d95_b3df, 151, TWO192);
    case 36 =>
      n := 0x5_650a_7354_8baf_63de;
      assert CubeRoot(0x5_650a_7354_8baf_63de, 157, TWO192);
    case 37 =>
      n := 0x5_766a_0abb_3c77_b2a8;
      assert CubeRoot(0x5_766a_0abb_3c77_b2a8, 163, TWO192);
    case 38 =>
      n := 0x5_81c2_c92e_47ed_aee6;
      assert CubeRoot(0x5_81c2_c92e_47ed_aee6, 167, TWO192);
    case 39 =>
      n := 0x5_9272_2c85_1482_353b;
      assert CubeRoot(0x5_9272_2c85_1482_353b, 173, TWO192);
  }

  lemma {:induction false} K64From40(t: nat) returns (n: nat)
    requires 40 <= t < 48
    ensures CubeRoot(n, Prime(t), TWO192) && Sha512Block.K64(t) == n % TWO64
  {
    match t
    case 40 =>
      n := 0x5_a2bf_e8a1_4cf1_0364;
      assert CubeRoot(0x5_a2bf_e8a1_4cf1_0364, 179, TWO192);
    case 41 =>
      n := 0x5_a81a_664b_bc42_3001;
      assert CubeRoot(0x5_a81a_664b_bc42_3001, 181, TWO192);
    case 42 =>
      n := 0x5_c24b_8b70_d0f8_9791;
      assert CubeRoot(0x5_c24b_8b70_d0f8_9791, 191, TWO192);
    case 43 =>
      n := 0x5_c76c_51a3_0654_be30;
      assert CubeRoot(0x5_c76c_51a3_0654_be30, 193, TWO192);
    case 44 =>
      n := 0x5_d192_e819_d6ef_5218;
      assert CubeRoot(0x5_d192_e819_d6ef_5218, 197, TWO192);
    case 45 =>
      n := 0x5_d699_0624_5565_a910;
      assert CubeRoot(0x5_d699_0624_5565_a910, 199, TWO192);
    case 46 =>
      n := 0x5_f40e_3585_5771_202a;
      assert CubeRoot(0x5_f40e_3585_5771_202a, 211, TWO192);
    case 47 =>
      n := 0x6_106a_a070_32bb_d1b8;
      assert CubeRoot(0x6_106a_a070_32bb_d1b8, 223, TWO192);
  }

  lemma {:induction false} K64From48(t: nat) returns (n: nat)
    requires 48 <= t < 56
    ensures CubeRoot(n, Prime(t), TWO192) && Sha512Block.K64(t) == n % TWO64
  {
    match t
    case 48 =>
      n := 0x6_19a4_c116_b8d2_d0c8;
      assert CubeRoot(0x6_19a4_c116_b8d2_d0c8, 227, TWO192);
    case 49 =>
      n := 0x6_1e37_6c08_5141_ab53;
      assert CubeRoot(0x6_1e37_6c08_5141_ab53, 229, TWO192);
    case 50 =>
      n := 0x6_2748_774c_df8e_eb99;
      assert CubeRoot(0x6_2748_774c_df8e_eb99, 233, TWO192);
    case 51 =>
      n := 0x6_34b0_bcb5_e19b_48a8;
      assert CubeRoot(0x6_34b0_bcb5_e19b_48a8, 239, TWO192);
    case 52 =>
      n := 0x6_391c_0cb3_c5c9_5a63;
      assert CubeRoot(0x6_391c_0cb3_c5c9_5a63, 241, TWO192);
    case 53 =>
      n := 0x6_4ed8_aa4a_e341_8acb;
      assert CubeRoot(0x6_4ed8_aa4a_e341_8acb, 251, TWO192);
    case 54 =>
      n := 0x6_5b9c_ca4f_7763_e373;
      assert CubeRoot(0x6_5b9c_ca4f_7763_e373, 257, TWO192);
    case 55 =>
      n := 0x6_682e_6ff3_d6b2_b8a3;
      assert CubeRoot(0x6_682e_6ff3_d6b2_b8a3, 263, TWO192);
  }

  lemma {:induction false} K64From56(t: nat) returns (n: nat)
    requires 56 <= t < 64
    ensures CubeRoot(n, Prime(t), TWO192) && Sha512Block.K64(t) == n % TWO64
  {
    match t
    case 56 =>
      n := 0x6_748f_82ee_5def_b2fc;
      assert CubeRoot(0x6_748f_82ee_5def_b2fc, 269, TWO192);
    case 57 =>
      n := 0x6_78a5_636f_4317_2f60;
      assert CubeRoot(0x6_78a5_636f_4317_2f60, 271, TWO192);
    case 58 =>
      n := 0x6_84c8_7814_a1f0_ab72;
      assert CubeRoot(0x6_84c8_7814_a1f0_ab72, 277, TWO192);
    case 59 =>
      n := 0x6_8cc7_0208_1a64_39ec;
      assert CubeRoot(0x6_8cc7_0208_1a64_39ec, 281, TWO192);
    case 60 =>
      n := 0x6_90be_fffa_2363_1e28;
      assert CubeRoot(0x6_90be_fffa_2363_1e28, 283, TWO192);
    case 61 =>
      n := 0x6_a450_6ceb_de82_bde9;
      assert CubeRoot(0x6_a450_6ceb_de82_bde9, 293, TWO192);
    case 62 =>
      n := 0x6_bef9_a3f7_b2c6_7915;
      assert CubeRoot(0x6_bef9_a3f7_b2c6_7915, 307, TWO192);
    case 63 =>
      n := 0x6_c671_78f2_e372_532b;
      assert CubeRoot(0x6_c671_78f2_e372_532b, 311, TWO192);
  }

  lemma {:induction false} K64From64(t: nat) returns (n: nat)
    requires 64 <= t < 72
    ensures CubeRoot(n, Prime(t), TWO192) && Sha512Block.K64(t) == n % TWO64
  {
    match t
    case 64 =>
      n := 0x6_ca27_3ece_ea26_619c;
      assert CubeRoot(0x6_ca27_3ece_ea26_619c, 313, TWO192);
    case 65 =>
      n := 0x6_d186_b8c7_21c0_c207;
      assert CubeRoot(0x6_d186_b8c7_21c0_c207, 317, TWO192);
    case 66 =>
      n := 0x6_eada_7dd6_cde0_eb1e;
      assert CubeRoot(0x6_eada_7dd6_cde0_eb1e, 331, TWO192);
    case 67 =>
      n := 0x6_f57d_4f7f_ee6e_d178;
      assert CubeRoot(0x6_f57d_4f7f_ee6e_d178, 337, TWO192);
    case 68 =>
      n := 0x7_06f0_67aa_7217_6fba;
      assert CubeRoot(0x7_06f0_67aa_7217_6fba, 347, TWO192);
    case 69 =>
      n := 0x7_0a63_7dc5_a2c8_98a6;
      assert CubeRoot(0x7_0a63_7dc5_a2c8_98a6, 349, TWO192);
    case 70 =>
      n := 0x7_113f_9804_bef9_0dae;
      assert CubeRoot(0x7_113f_9804_bef9_0dae, 353, TWO192);
    case 71 =>
      n := 0x7_1b71_0b35_131c_471b;
      assert CubeRoot(0x7_1b71_0b35_131c_471b, 359, TWO192);
  }

  lemma {:induction false} K64From72(t: nat) returns (n: nat)
    requires 72 <= t < 80
    ensures CubeRoot(n, Prime(t), TWO192) && Sha512Block.K64(t) == n % TWO64
  {
    match t
    case 72 =>
      n := 0x7_28db_77f5_2304_7d84;
      assert CubeRoot(0x7_28db_77f5_2304_7d84, 367, TWO192);
    case 73 =>
      n := 0x7_32ca_ab7b_40c7_2493;
      assert CubeRoot(0x7_32ca_ab7b_40c7_2493, 373, TWO192);
    case 74 =>
      n := 0x7_3c9e_be0a_15c9_bebc;
      assert CubeRoot(0x7_3c9e_be0a_15c9_bebc, 379, TWO192);
    case 75 =>
      n := 0x7_431d_67c4_9c10_0d4c;
      assert CubeRoot(0x7_431d_67c4_9c10_0d4c, 383, TWO192);
    case 76 =>
      n := 0x7_4cc5_d4be_cb3e_42b6;
      assert CubeRoot(0x7_4cc5_d4be_cb3e_42b6, 389, TWO192);
    case 77 =>
      n := 0x7_597f_299c_fc65_7e2a;
      assert CubeRoot(0x7_597f_299c_fc65_7e2a, 397, TWO192);
    case 78 =>
      n := 0x7_5fcb_6fab_3ad6_faec;
      assert CubeRoot(0x7_5fcb_6fab_3ad6_faec, 401, TWO192);
    case 79 =>
      n := 0x7_6c44_198c_4a47_5817;
      assert CubeRoot(0x7_6c44_198c_4a47_5817, 409, TWO192);
  }

  /** Section 4.2.3: constant `t` is the first 64 bits of the fractional part of the cube root of prime `t`. */
  lemma {:induction false} K64IsCubeRoot(t: nat) returns (n: nat)
    requires t < 80
    ensures CubeRoot(n, Prime(t), TWO192) && Sha512Block.K64(t) == n % TWO64
  {
    hide *;
    if t < 8 {
      n := K64From0(t);
    } else if t < 16 {
      n := K64From8(t);
    } else if t < 24 {
      n := K64From16(t);
    } else if t < 32 {
      n := K64From24(t);
    } else if t < 40 {
      n := K64From32(t);
    } else if t < 48 {
      n := K64From40(t);
    } else if t < 56 {
      n := K64From48(t);
    } else if t < 64 {
      n := K64From56(t);
    } else if t < 72 {
      n := K64From64(t);
    } else {
      n := K64From72(t);
    }
  }

  /** Section 5.3.3: the first 32 bits of the fractional parts of the square roots of the first eight primes. */
  lemma {:induction false} H256IsSquareRoot(i: nat) returns (n: nat)
    requires i < 8
    ensures SquareRoot(n, Prime(i), TWO64) && Sha256Engine.Initial(Sha256Engine.Sha256)[i] == n % TWO32
  {
    match i
    case 0 =>
      n := 0x1_6a09_e667;
      assert SquareRoot(0x1_6a09_e667, 2, TWO64);
    case 1 =>
      n := 0x1_bb67_ae85;
      assert SquareRoot(0x1_bb67_ae85, 3, TWO64);
    case 2 =>
      n := 0x2_3c6e_f372;
      assert SquareRoot(0x2_3c6e_f372, 5, TWO64);
    case 3 =>
      n := 0x2_a54f_f53a;
      assert SquareRoot(0x2_a54f_f53a, 7, TWO64);
    case 4 =>
      n := 0x3_510e_527f;
      assert SquareRoot(0x3_510e_527f, 11, TWO64);
    case 5 =>
      n := 0x3_9b05_688c;
      assert SquareRoot(0x3_9b05_688c, 13, TWO64);
    case 6 =>
      n := 0x4_1f83_d9ab;
      assert SquareRoot(0x4_1f83_d9ab, 17, TWO64);
    case 7 =>
      n := 0x4_5be0_cd19;
      assert SquareRoot(0x4_5be0_cd19, 19, TWO64);
  }

  /** Section 5.3.5: the first 64 bits of the same. */
  lemma {:induction false} H512IsSquareRoot(i: nat) returns (n: nat)
    requires i < 8
    ensures SquareRoot(n, Prime(i), TWO128) && Sha512Engine.Initial(Sha512Engine.Sha512)[i] == n % TWO64
  {
    match i
    case 0 =>
      n := 0x1_6a09_e667_f3bc_c908;
      assert SquareRoot(0x1_6a09_e667_f3bc_c908, 2, TWO128);
    case 1 =>
      n := 0x1_bb67_ae85_84ca_a73b;
      assert SquareRoot(0x1_bb67_ae85_84ca_a73b, 3, TWO128);
    case 2 =>
      n := 0x2_3c6e_f372_fe94_f82b;
      assert SquareRoot(0x2_3c6e_f372_fe94_f82b, 5, TWO128);
    case 3 =>
      n := 0x2_a54f_f53a_5f1d_36f1;
      assert SquareRoot(0x2_a54f_f53a_5f1d_36f1, 7, TWO128);
    case 4 =>
      n := 0x3_510e_527f_ade6_82d1;
      assert SquareRoot(0x3_510e_527f_ade6_82d1, 11, TWO128);
    case 5 =>
      n := 0x3_9b05_688c_2b3e_6c1f;
      assert SquareRoot(0x3_9b05_688c_2b3e_6c1f, 13, TWO128);
    case 6 =>
      n := 0x4_1f83_d9ab_fb41_bd6b;
      assert SquareRoot(0x4_1f83_d9ab_fb41_bd6b, 17, TWO128);
    case 7 =>
      n := 0x4_5be0_cd19_137e_2179;
      assert SquareRoot(0x4_5be0_cd19_137e_2179, 19, TWO128);
  }

  /** Section 5.3.4: the first 64 bits of the fractional parts of the square roots of the ninth to sixteenth primes. */
  lemma {:induction false} H384IsSquareRoot(i: nat) returns (n: nat)
    requires i < 8
    ensures SquareRoot(n, Prime(i + 8), TWO128) && Sha512Engine.Initial(Sha512Engine.Sha384)[i] == n % TWO64
  {
    match i
    case 0 =>
      n := 0x4_cbbb_9d5d_c105_9ed8;
      assert SquareRoot(0x4_cbbb_9d5d_c105_9ed8, 23, TWO128);
    case 1 =>
      n := 0x5_629a_292a_367c_d507;
      assert SquareRoot(0x5_629a_292a_367c_d507, 29, TWO128);
    case 2 =>
      n := 0x5_9159_015a_3070_dd17;
      assert SquareRoot(0x5_9159_015a_3070_dd17, 31, TWO128);
    case 3 =>
      n := 0x6_152f_ecd8_f70e_5939;
      assert SquareRoot(0x6_152f_ecd8_f70e_5939, 37, TWO128);
    case 4 =>
      n := 0x6_6733_2667_ffc0_0b31;
      assert SquareRoot(0x6_6733_2667_ffc0_0b31, 41, TWO128);
    case 5 =>
      n := 0x6_8eb4_4a87_6858_1511;
      assert SquareRoot(0x6_8eb4_4a87_6858_1511, 43, TWO128);
    case 6 =>
      n := 0x6_db0c_2e0d_64f9_8fa7;
      assert SquareRoot(0x6_db0c_2e0d_64f9_8fa7, 47, TWO128);
    case 7 =>
      n := 0x7_47b5_481d_befa_4fa4;
      assert SquareRoot(0x7_47b5_481d_befa_4fa4, 53, TWO128);
  }

  /** Section 5.3.2: the second 32 bits of those, the lower halves of the 64. */
  lemma {:induction false} H224IsSquareRoot(i: nat) returns (n: nat)
    requires i < 8
    ensures SquareRoot(n, Prime(i + 8), TWO128) && Sha256Engine.Initial(Sha256Engine.Sha224)[i] == n % TWO32
  {
    match i
    case 0 =>
      n := 0x4_cbbb_9d5d_c105_9ed8;
      assert SquareRoot(0x4_cbbb_9d5d_c105_9ed8, 23, TWO128);
    case 1 =>
      n := 0x5_629a_292a_367c_d507;
      assert SquareRoot(0x5_629a_292a_367c_d507, 29, TWO128);
    case 2 =>
      n := 0x5_9159_015a_3070_dd17;
      assert SquareRoot(0x5_9159_015a_3070_dd17, 31, TWO128);
    case 3 =>
      n := 0x6_152f_ecd8_f70e_5939;
      assert SquareRoot(0x6_152f_ecd8_f70e_5939, 37, TWO128);
    case 4 =>
      n := 0x6_6733_2667_ffc0_0b31;
      assert SquareRoot(0x6_6733_2667_ffc0_0b31, 41, TWO128);
    case 5 =>
      n := 0x6_8eb4_4a87_6858_1511;
      assert SquareRoot(0x6_8eb4_4a87_6858_1511, 43, TWO128);
    case 6 =>
      n := 0x6_db0c_2e0d_64f9_8fa7;
      assert SquareRoot(0x6_db0c_2e0d_64f9_8fa7, 47, TWO128);
    case 7 =>
      n := 0x7_47b5_481d_befa_4fa4;
      assert SquareRoot(0x7_47b5_481d_befa_4fa4, 53, TWO128);
  }
}
