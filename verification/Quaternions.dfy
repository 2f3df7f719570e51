/**
 Rotations of the scatter view as quaternions, over real numbers: what the mouse accumulates by
 multiplying quaternions is what rotating step by step does.
 */
module Quaternions {
  datatype Vector3 = Vector3(x: real, y: real, z: real)

  datatype Quaternion = Quaternion(w: real, x: real, y: real, z: real)

  function Add(u: Vector3, v: Vector3): Vector3 {
    Vector3(u.x + v.x, u.y + v.y, u.z + v.z)
  }

  function Scale(s: real, v: Vector3): Vector3 {
    Vector3(s * v.x, s * v.y, s * v.z)
  }

  function Cross(u: Vector3, v: Vector3): Vector3 {
    Vector3(u.y * v.z - u.z * v.y, u.z * v.x - u.x * v.z, u.x * v.y - u.y * v.x)
  }

  function Dot(u: Vector3, v: Vector3): real {
    u.x * v.x + u.y * v.y + u.z * v.z
  }

  function Mult(p: Quaternion, q: Quaternion): Quaternion {
    Quaternion(p.w * q.w - (p.x * q.x + p.y * q.y + p.z * q.z),
               p.w * q.x + q.w * p.x + p.y * q.z - p.z * q.y,
               p.w * q.y + q.w * p.y + p.z * q.x - p.x * q.z,
               p.w * q.z + q.w * p.z + p.x * q.y - p.y * q.x)
  }

  /** The rotation of a vector, as the program computes it. */
  function MultVector3(q: Quaternion, v: Vector3): Vector3 {
    var u := Vector3(q.x, q.y, q.z);
    var uu, uv := Dot(u, u), Dot(u, v);
    Add(Scale(2.0, Add(Scale(uv, u), Scale(q.w, Cross(u, v)))), Scale(q.w * q.w - uu, v))
  }

  function Conjugate(q: Quaternion): Quaternion {
    Quaternion(q.w, -q.x, -q.y, -q.z)
  }

  function Pure(v: Vector3): Quaternion {
    Quaternion(0.0, v.x, v.y, v.z)
  }

  function Norm(q: Quaternion): real {
    q.w * q.w + q.x * q.x + q.y * q.y + q.z * q.z
  }

  // Component identities over plain numbers. The y and z components follow by turning x, y, z around.

  /** The components `w` and `x` of a product. */
  predicate IsW(w: real, pw: real, px: real, py: real, pz: real, qw: real, qx: real, qy: real, qz: real) {
    w == pw * qw - (px * qx + py * qy + pz * qz)
  }

  predicate IsX(x: real, pw: real, px: real, py: real, pz: real, qw: real, qx: real, qy: real, qz: real) {
    x == pw * qx + qw * px + py * qz - pz * qy
  }

  predicate IsProduct(a: Quaternion, p: Quaternion, q: Quaternion) {
    && IsW(a.w, p.w, p.x, p.y, p.z, q.w, q.x, q.y, q.z)
    && IsX(a.x, p.w, p.x, p.y, p.z, q.w, q.x, q.y, q.z)
    && IsX(a.y, p.w, p.y, p.z, p.x, q.w, q.y, q.z, q.x)
    && IsX(a.z, p.w, p.z, p.x, p.y, q.w, q.z, q.x, q.y)
  }

  lemma {:induction false} ProductIs(p: Quaternion, q: Quaternion)
    ensures IsProduct(Mult(p, q), p, q)
  {
  }

  /** The units multiply as i j = k, j k = i and k i = j; multiplying by i turns a quaternion accordingly. */
  lemma {:induction false} Units(q: Quaternion)
    ensures Mult(Quaternion(0.0, 1.0, 0.0, 0.0), q) == Quaternion(-q.x, q.w, -q.z, q.y)
    ensures Mult(Quaternion(0.0, 0.0, 1.0, 0.0), q) == Quaternion(-q.y, q.z, q.w, -q.x)
    ensures Mult(Quaternion(0.0, 0.0, 0.0, 1.0), q) == Quaternion(-q.z, -q.y, q.x, q.w)
    ensures Mult(Quaternion(1.0, 0.0, 0.0, 0.0), q) == q
  {
  }

  lemma {:induction false} AssociativeW(pw: real, px: real, py: real, pz: real, qw: real, qx: real, qy: real, qz: real,
                                        rw: real, rx: real, ry: real, rz: real, aw: real, ax: real, ay: real, az: real,
                                        bw: real, bx: real, bv: real, bz: real)
    requires IsW(aw, pw, px, py, pz, qw, qx, qy, qz) && IsX(ax, pw, px, py, pz, qw, qx, qy, qz)
    requires IsX(ay, pw, py, pz, px, qw, qy, qz, qx) && IsX(az, pw, pz, px, py, qw, qz, qx, qy)
    requires IsW(bw, qw, qx, qy, qz, rw, rx, ry, rz) && IsX(bx, qw, qx, qy, qz, rw, rx, ry, rz)
    requires IsX(bv, qw, qy, qz, qx, rw, ry, rz, rx) && IsX(bz, qw, qz, qx, qy, rw, rz, rx, ry)
    ensures aw * rw - (ax * rx + ay * ry + az * rz) == pw * bw - (px * bx + py * bv + pz * bz)
  {
  }

  lemma {:induction false} AssociativeX(pw: real, px: real, py: real, pz: real, qw: real, qx: real, qy: real, qz: real,
                                        rw: real, rx: real, ry: real, rz: real, aw: real, ax: real, ay: real, az: real,
                                        bw: real, bx: real, bv: real, bz: real)
    requires IsW(aw, pw, px, py, pz, qw, qx, qy, qz) && IsX(ax, pw, px, py, pz, qw, qx, qy, qz)
    requires IsX(ay, pw, py, pz, px, qw, qy, qz, qx) && IsX(az, pw, pz, px, py, qw, qz, qx, qy)
    requires IsW(bw, qw, qx, qy, qz, rw, rx, ry, rz) && IsX(bx, qw, qx, qy, qz, rw, rx, ry, rz)
    requires IsX(bv, qw, qy, qz, qx, rw, ry, rz, rx) && IsX(bz, qw, qz, qx, qy, rw, rz, rx, ry)
    ensures aw * rx + rw * ax + ay * rz - az * ry == pw * bx + bw * px + py * bz - pz * bv
  {
  }

  lemma {:induction false} MultAssociative(p: Quaternion, q: Quaternion, r: Quaternion)
    ensures Mult(Mult(p, q), r) == Mult(p, Mult(q, r))
  {
    var a, b := Mult(p, q), Mult(q, r);
    ProductIs(p, q);
    ProductIs(q, r);
    AssociativeW(p.w, p.x, p.y, p.z, q.w, q.x, q.y, q.z, r.w, r.x, r.y, r.z, a.w, a.x, a.y, a.z, b.w, b.x, b.y, b.z);
    AssociativeX(p.w, p.x, p.y, p.z, q.w, q.x, q.y, q.z, r.w, r.x, r.y, r.z, a.w, a.x, a.y, a.z, b.w, b.x, b.y, b.z);
    AssociativeX(p.w, p.y, p.z, p.x, q.w, q.y, q.z, q.x, r.w, r.y, r.z, r.x, a.w, a.y, a.z, a.x, b.w, b.y, b.z, b.x);
    AssociativeX(p.w, p.z, p.x, p.y, q.w, q.z, q.x, q.y, r.w, r.z, r.x, r.y, a.w, a.z, a.x, a.y, b.w, b.z, b.x, b.y);
  }

  lemma {:induction false} LengthX(x: real, y: real, z: real, a: real, b: real, c: real, uu: real, uv: real)
    requires uu == x * x + y * y + z * z && uv == x * a + y * b + z * c
    ensures uv * x - uu * a == x * (y * b + z * c) - a * (y * y + z * z)
  {
  }

  lemma {:induction false} ConjugationX(w: real, x: real, y: real, z: real, a: real, b: real, c: real,
                                        mw: real, mx: real, my: real, mz: real, uu: real, uv: real)
    requires IsW(mw, w, x, y, z, 0.0, a, b, c) && IsX(mx, w, x, y, z, 0.0, a, b, c)
    requires IsX(my, w, y, z, x, 0.0, b, c, a) && IsX(mz, w, z, x, y, 0.0, c, a, b)
    requires uu == x * x + y * y + z * z && uv == x * a + y * b + z * c
    ensures mw * -x + w * mx + my * -z - mz * -y == 2.0 * (uv * x + w * (y * c - z * b)) + (w * w - uu) * a
  {
    LengthX(x, y, z, a, b, c, uu, uv);
    assert mw == -uv;
  }

  lemma {:induction false} RotatedX(q: Quaternion, v: Vector3, m: Quaternion)
    requires IsProduct(m, q, Pure(v))
    ensures Mult(m, Conjugate(q)).x == MultVector3(q, v).x
  {
    var u := Vector3(q.x, q.y, q.z);
    ConjugationX(q.w, q.x, q.y, q.z, v.x, v.y, v.z, m.w, m.x, m.y, m.z, Dot(u, u), Dot(u, v));
  }

  lemma {:induction false} RotatedY(q: Quaternion, v: Vector3, m: Quaternion)
    requires IsProduct(m, q, Pure(v))
    ensures Mult(m, Conjugate(q)).y == MultVector3(q, v).y
  {
    var u := Vector3(q.x, q.y, q.z);
    ConjugationX(q.w, q.y, q.z, q.x, v.y, v.z, v.x, m.w, m.y, m.z, m.x, Dot(u, u), Dot(u, v));
  }

  lemma {:induction false} RotatedZ(q: Quaternion, v: Vector3, m: Quaternion)
    requires IsProduct(m, q, Pure(v))
    ensures Mult(m, Conjugate(q)).z == MultVector3(q, v).z
  {
    var u := Vector3(q.x, q.y, q.z);
    ConjugationX(q.w, q.z, q.x, q.y, v.z, v.x, v.y, m.w, m.z, m.x, m.y, Dot(u, u), Dot(u, v));
  }

  lemma {:induction false} RotatedW(q: Quaternion, v: Vector3, m: Quaternion)
    requires IsProduct(m, q, Pure(v))
    ensures Mult(m, Conjugate(q)).w == 0.0
  {
  }

  lemma {:induction false} Rotated(q: Quaternion, v: Vector3, m: Quaternion)
    requires IsProduct(m, q, Pure(v))
    ensures Pure(MultVector3(q, v)) == Mult(m, Conjugate(q))
  {
    RotatedW(q, v, m);
    RotatedX(q, v, m);
    RotatedY(q, v, m);
    RotatedZ(q, v, m);
  }

  /** The formula is the quaternion product around the vector. */
  lemma {:induction false} RotatesByConjugation(q: Quaternion, v: Vector3)
    ensures Pure(MultVector3(q, v)) == Mult(Mult(q, Pure(v)), Conjugate(q))
  {
    ProductIs(q, Pure(v));
    Rotated(q, v, Mult(q, Pure(v)));
  }

  lemma {:induction false} ConjugateOfProduct(p: Quaternion, q: Quaternion)
    ensures Conjugate(Mult(p, q)) == Mult(Conjugate(q), Conjugate(p))
  {
    ProductIs(p, q);
    ProductIs(Conjugate(q), Conjugate(p));
  }

  lemma {:induction false} Around(p: Quaternion, q: Quaternion, x: Quaternion, cq: Quaternion, cp: Quaternion)
    ensures Mult(Mult(Mult(p, q), x), Mult(cq, cp)) == Mult(Mult(p, Mult(Mult(q, x), cq)), cp)
  {
    MultAssociative(p, q, x);
    MultAssociative(Mult(p, Mult(q, x)), cq, cp);
    MultAssociative(p, Mult(q, x), cq);
  }

  /** Rotating by a product is rotating twice. */
  lemma {:induction false} ProductRotatesTwice(p: Quaternion, q: Quaternion, v: Vector3)
    ensures MultVector3(Mult(p, q), v) == MultVector3(p, MultVector3(q, v))
  {
    var x, r := Pure(v), MultVector3(q, v);
    var pq, cp, cq := Mult(p, q), Conjugate(p), Conjugate(q);
    RotatesByConjugation(pq, v);
    RotatesByConjugation(p, r);
    RotatesByConjugation(q, v);
    ConjugateOfProduct(p, q);
    Around(p, q, x, cq, cp);
    assert Pure(MultVector3(pq, v)) == Pure(MultVector3(p, r));
  }

  lemma {:induction false} FourSquares(pw: real, px: real, py: real, pz: real, qw: real, qx: real, qy: real, qz: real,
                                       w: real, x: real, y: real, z: real, np: real, nq: real)
    requires IsW(w, pw, px, py, pz, qw, qx, qy, qz) && IsX(x, pw, px, py, pz, qw, qx, qy, qz)
    requires IsX(y, pw, py, pz, px, qw, qy, qz, qx) && IsX(z, pw, pz, px, py, qw, qz, qx, qy)
    requires np == pw * pw + px * px + py * py + pz * pz && nq == qw * qw + qx * qx + qy * qy + qz * qz
    ensures w * w + x * x + y * y + z * z == np * nq
  {
  }

  lemma {:induction false} NormOfProduct(p: Quaternion, q: Quaternion)
    ensures Norm(Mult(p, q)) == Norm(p) * Norm(q)
  {
    var r := Mult(p, q);
    ProductIs(p, q);
    FourSquares(p.w, p.x, p.y, p.z, q.w, q.x, q.y, q.z, r.w, r.x, r.y, r.z, Norm(p), Norm(q));
  }

  /** The length of a vector is scaled by the norm of the quaternion, so unit quaternions keep it. */
  lemma {:induction false} NormScales(q: Quaternion, v: Vector3)
    ensures Dot(MultVector3(q, v), MultVector3(q, v)) == Norm(q) * Norm(q) * Dot(v, v)
  {
    RotatesByConjugation(q, v);
    NormOfProduct(q, Pure(v));
    NormOfProduct(Mult(q, Pure(v)), Conjugate(q));
    assert Norm(Conjugate(q)) == Norm(q);
    assert Norm(Pure(v)) == Dot(v, v);
    assert Norm(Pure(MultVector3(q, v))) == Dot(MultVector3(q, v), MultVector3(q, v));
  }
}
