/** The algebra of quaternions and rotation matrices behind the sensor fusion, over the reals. */
module Quaternion {

  datatype Vector = Vector(x: real, y: real, z: real)

  datatype Quat = Quat(w: real, x: real, y: real, z: real)

  datatype Matrix = Matrix(
    xx: real, xy: real, xz: real, yx: real, yy: real, yz: real, zx: real, zy: real, zz: real)

  const IDENTITY := Quat(1.0, 0.0, 0.0, 0.0)
  const EX := Vector(1.0, 0.0, 0.0)
  const EY := Vector(0.0, 1.0, 0.0)
  const EZ := Vector(0.0, 0.0, 1.0)

  // ---- The library's operations ----

  function Multiply(a: Quat, b: Quat): Quat {
    Quat(
      a.w * b.w - a.x * b.x - a.y * b.y - a.z * b.z,
      a.w * b.x + a.x * b.w + a.y * b.z - a.z * b.y,
      a.w * b.y - a.x * b.z + a.y * b.w + a.z * b.x,
      a.w * b.z + a.x * b.y - a.y * b.x + a.z * b.w)
  }

  function MultiplyVector(q: Quat, v: Vector): Quat {
    Quat(
      -q.x * v.x - q.y * v.y - q.z * v.z,
      q.w * v.x + q.y * v.z - q.z * v.y,
      q.w * v.y - q.x * v.z + q.z * v.x,
      q.w * v.z + q.x * v.y - q.y * v.x)
  }

  function Add(a: Quat, b: Quat): Quat { Quat(a.w + b.w, a.x + b.x, a.y + b.y, a.z + b.z) }

  function MatrixMultiplyVector(m: Matrix, v: Vector): Vector {
    Vector(
      m.xx * v.x + m.xy * v.y + m.xz * v.z,
      m.yx * v.x + m.yy * v.y + m.yz * v.z,
      m.zx * v.x + m.zy * v.y + m.zz * v.z)
  }

  function ToMatrix(q: Quat): Matrix {
    var qwqw := q.w * q.w;
    var qwqx := q.w * q.x;
    var qwqy := q.w * q.y;
    var qwqz := q.w * q.z;
    var qxqy := q.x * q.y;
    var qxqz := q.x * q.z;
    var qyqz := q.y * q.z;
    Matrix(
      2.0 * (qwqw - 0.5 + q.x * q.x), 2.0 * (qxqy - qwqz), 2.0 * (qxqz + qwqy),
      2.0 * (qxqy + qwqz), 2.0 * (qwqw - 0.5 + q.y * q.y), 2.0 * (qyqz - qwqx),
      2.0 * (qxqz - qwqy), 2.0 * (qyqz + qwqx), 2.0 * (qwqw - 0.5 + q.z * q.z))
  }

  // ---- Notions to state their laws with ----

  function NormSquared(q: Quat): real { q.w * q.w + q.x * q.x + q.y * q.y + q.z * q.z }

  predicate Unit(q: Quat) { NormSquared(q) == 1.0 }

  function Conjugate(q: Quat): Quat { Quat(q.w, -q.x, -q.y, -q.z) }

  function Pure(v: Vector): Quat { Quat(0.0, v.x, v.y, v.z) }

  function LengthSquared(v: Vector): real { v.x * v.x + v.y * v.y + v.z * v.z }

  function Scale(v: Vector, k: real): Vector { Vector(v.x * k, v.y * k, v.z * k) }

  /** The rotation of a vector by a unit quaternion, by its definition. */
  function Sandwich(q: Quat, v: Vector): Quat { Multiply(Multiply(q, Pure(v)), Conjugate(q)) }

  function MatrixMultiply(m: Matrix, n: Matrix): Matrix {
    var x, y, z := MatrixMultiplyVector(m, ColumnX(n)), MatrixMultiplyVector(m, ColumnY(n)),
                   MatrixMultiplyVector(m, ColumnZ(n));
    Matrix(x.x, y.x, z.x, x.y, y.y, z.y, x.z, y.z, z.z)
  }

  function ColumnX(m: Matrix): Vector { Vector(m.xx, m.yx, m.zx) }
  function ColumnY(m: Matrix): Vector { Vector(m.xy, m.yy, m.zy) }
  function ColumnZ(m: Matrix): Vector { Vector(m.xz, m.yz, m.zz) }

  function Transpose(m: Matrix): Matrix { Matrix(m.xx, m.yx, m.zx, m.xy, m.yy, m.zy, m.xz, m.yz, m.zz) }

  const EYE := Matrix(1.0, 0.0, 0.0, 0.0, 1.0, 0.0, 0.0, 0.0, 1.0)

  /** The rotation matrix with every entry of degree two in the quaternion. */
  function Homogeneous(q: Quat): Matrix {
    Matrix(
      q.w * q.w + q.x * q.x - q.y * q.y - q.z * q.z, 2.0 * (q.x * q.y - q.w * q.z), 2.0 * (q.x * q.z + q.w * q.y),
      2.0 * (q.x * q.y + q.w * q.z), q.w * q.w - q.x * q.x + q.y * q.y - q.z * q.z, 2.0 * (q.y * q.z - q.w * q.x),
      2.0 * (q.x * q.z - q.w * q.y), 2.0 * (q.y * q.z + q.w * q.x), q.w * q.w - q.x * q.x - q.y * q.y + q.z * q.z)
  }

  // ---- Multiplication, part by part; the three vector parts are one another's by rotating x, y, z ----

  lemma AssociativeW(aw: real, ax: real, ay: real, az: real, bw: real, bx: real, bY: real, bz: real,
                     cw: real, cx: real, cy: real, cz: real, lw: real, lx: real, ly: real, lz: real,
                     rw: real, rx: real, ry: real, rz: real)
    requires lw == aw * bw - ax * bx - ay * bY - az * bz && rw == bw * cw - bx * cx - bY * cy - bz * cz
    requires lx == aw * bx + ax * bw + ay * bz - az * bY && rx == bw * cx + bx * cw + bY * cz - bz * cy
    requires ly == aw * bY - ax * bz + ay * bw + az * bx && ry == bw * cy - bx * cz + bY * cw + bz * cx
    requires lz == aw * bz + ax * bY - ay * bx + az * bw && rz == bw * cz + bx * cy - bY * cx + bz * cw
    ensures lw * cw - lx * cx - ly * cy - lz * cz == aw * rw - ax * rx - ay * ry - az * rz
  {
  }

  lemma AssociativeX(aw: real, ax: real, ay: real, az: real, bw: real, bx: real, bY: real, bz: real,
                     cw: real, cx: real, cy: real, cz: real, lw: real, lx: real, ly: real, lz: real,
                     rw: real, rx: real, ry: real, rz: real)
    requires lw == aw * bw - ax * bx - ay * bY - az * bz && rw == bw * cw - bx * cx - bY * cy - bz * cz
    requires lx == aw * bx + ax * bw + ay * bz - az * bY && rx == bw * cx + bx * cw + bY * cz - bz * cy
    requires ly == aw * bY - ax * bz + ay * bw + az * bx && ry == bw * cy - bx * cz + bY * cw + bz * cx
    requires lz == aw * bz + ax * bY - ay * bx + az * bw && rz == bw * cz + bx * cy - bY * cx + bz * cw
    ensures lw * cx + lx * cw + ly * cz - lz * cy == aw * rx + ax * rw + ay * rz - az * ry
  {
  }

  /** That a quaternion is a product, part by part. */
  ghost predicate IsProduct(p: Quat, a: Quat, b: Quat) {
    && p.w == a.w * b.w - a.x * b.x - a.y * b.y - a.z * b.z
    && p.x == a.w * b.x + a.x * b.w + a.y * b.z - a.z * b.y
    && p.y == a.w * b.y - a.x * b.z + a.y * b.w + a.z * b.x
    && p.z == a.w * b.z + a.x * b.y - a.y * b.x + a.z * b.w
  }

  lemma AssociativeAtW(a: Quat, b: Quat, c: Quat, l: Quat, r: Quat)
    requires IsProduct(l, a, b) && IsProduct(r, b, c)
    ensures Multiply(l, c).w == Multiply(a, r).w
  {
    AssociativeW(a.w, a.x, a.y, a.z, b.w, b.x, b.y, b.z, c.w, c.x, c.y, c.z, l.w, l.x, l.y, l.z, r.w, r.x, r.y, r.z);
  }

  lemma AssociativeAtX(a: Quat, b: Quat, c: Quat, l: Quat, r: Quat)
    requires IsProduct(l, a, b) && IsProduct(r, b, c)
    ensures Multiply(l, c).x == Multiply(a, r).x
  {
    AssociativeX(a.w, a.x, a.y, a.z, b.w, b.x, b.y, b.z, c.w, c.x, c.y, c.z, l.w, l.x, l.y, l.z, r.w, r.x, r.y, r.z);
  }

  lemma AssociativeAtY(a: Quat, b: Quat, c: Quat, l: Quat, r: Quat)
    requires IsProduct(l, a, b) && IsProduct(r, b, c)
    ensures Multiply(l, c).y == Multiply(a, r).y
  {
    AssociativeX(a.w, a.y, a.z, a.x, b.w, b.y, b.z, b.x, c.w, c.y, c.z, c.x, l.w, l.y, l.z, l.x, r.w, r.y, r.z, r.x);
  }

  lemma AssociativeAtZ(a: Quat, b: Quat, c: Quat, l: Quat, r: Quat)
    requires IsProduct(l, a, b) && IsProduct(r, b, c)
    ensures Multiply(l, c).z == Multiply(a, r).z
  {
    AssociativeX(a.w, a.z, a.x, a.y, b.w, b.z, b.x, b.y, c.w, c.z, c.x, c.y, l.w, l.z, l.x, l.y, r.w, r.z, r.x, r.y);
  }

  lemma AssociativeAt(a: Quat, b: Quat, c: Quat, l: Quat, r: Quat)
    requires IsProduct(l, a, b) && IsProduct(r, b, c)
    ensures Multiply(l, c) == Multiply(a, r)
  {
    AssociativeAtW(a, b, c, l, r);
    AssociativeAtX(a, b, c, l, r);
    AssociativeAtY(a, b, c, l, r);
    AssociativeAtZ(a, b, c, l, r);
  }

  lemma MultiplyAssociative(a: Quat, b: Quat, c: Quat)
    ensures Multiply(Multiply(a, b), c) == Multiply(a, Multiply(b, c))
  {
    AssociativeAt(a, b, c, Multiply(a, b), Multiply(b, c));
  }

  lemma FourSquares(aw: real, ax: real, ay: real, az: real, bw: real, bx: real, bY: real, bz: real,
                    lw: real, lx: real, ly: real, lz: real)
    requires lw == aw * bw - ax * bx - ay * bY - az * bz
    requires lx == aw * bx + ax * bw + ay * bz - az * bY
    requires ly == aw * bY - ax * bz + ay * bw + az * bx
    requires lz == aw * bz + ax * bY - ay * bx + az * bw
    ensures lw * lw + lx * lx + ly * ly + lz * lz
         == (aw * aw + ax * ax + ay * ay + az * az) * (bw * bw + bx * bx + bY * bY + bz * bz)
  {
  }

  lemma NormAt(a: Quat, b: Quat, l: Quat)
    requires IsProduct(l, a, b)
    ensures NormSquared(l) == NormSquared(a) * NormSquared(b)
  {
    FourSquares(a.w, a.x, a.y, a.z, b.w, b.x, b.y, b.z, l.w, l.x, l.y, l.z);
  }

  /** The squared norm of a product is the product of the squared norms. */
  lemma MultiplyNorm(a: Quat, b: Quat)
    ensures NormSquared(Multiply(a, b)) == NormSquared(a) * NormSquared(b)
  {
    NormAt(a, b, Multiply(a, b));
  }

  lemma MultiplyVectorIsMultiply(q: Quat, v: Vector)
    ensures MultiplyVector(q, v) == Multiply(q, Pure(v))
  {
  }

  ghost predicate IsConjugate(k: Quat, q: Quat) { k.w == q.w && k.x == -q.x && k.y == -q.y && k.z == -q.z }

  lemma OppositeFactor(w: real, x: real, kx: real)
    requires kx == -x
    ensures w * kx == -(w * x) && kx * kx == x * x
  {
  }

  lemma OppositesMultiply(x: real, y: real, kx: real, ky: real)
    requires kx == -x && ky == -y
    ensures kx * ky == x * y
  {
  }

  lemma OppositeParts(a: Quat, b: Quat, ka: Quat, kb: Quat)
    requires IsConjugate(ka, a) && IsConjugate(kb, b)
    ensures ka.x * kb.x == a.x * b.x && ka.x * kb.y == a.x * b.y && ka.x * kb.z == a.x * b.z
    ensures ka.y * kb.x == a.y * b.x && ka.y * kb.y == a.y * b.y && ka.y * kb.z == a.y * b.z
    ensures ka.z * kb.x == a.z * b.x && ka.z * kb.y == a.z * b.y && ka.z * kb.z == a.z * b.z
  {
    OppositesMultiply(a.x, b.x, ka.x, kb.x);
    OppositesMultiply(a.x, b.y, ka.x, kb.y);
    OppositesMultiply(a.x, b.z, ka.x, kb.z);
    OppositesMultiply(a.y, b.x, ka.y, kb.x);
    OppositesMultiply(a.y, b.y, ka.y, kb.y);
    OppositesMultiply(a.y, b.z, ka.y, kb.z);
    OppositesMultiply(a.z, b.x, ka.z, kb.x);
    OppositesMultiply(a.z, b.y, ka.z, kb.y);
    OppositesMultiply(a.z, b.z, ka.z, kb.z);
  }

  lemma ConjugateW(aw: real, ax: real, ay: real, az: real, bw: real, bx: real, bY: real, bz: real,
                   kw: real, kx: real, ky: real, kz: real, mw: real, mx: real, my: real, mz: real)
    requires kw == aw && kx == -ax && ky == -ay && kz == -az && mw == bw && mx == -bx && my == -bY && mz == -bz
    ensures mw * kw - mx * kx - my * ky - mz * kz == aw * bw - ax * bx - ay * bY - az * bz
  {
  }

  lemma ConjugateX(aw: real, ax: real, ay: real, az: real, bw: real, bx: real, bY: real, bz: real,
                   kw: real, kx: real, ky: real, kz: real, mw: real, mx: real, my: real, mz: real)
    requires kw == aw && kx == -ax && ky == -ay && kz == -az && mw == bw && mx == -bx && my == -bY && mz == -bz
    ensures mw * kx + mx * kw + my * kz - mz * ky == -(aw * bx + ax * bw + ay * bz - az * bY)
  {
  }

  lemma ConjugateAt(a: Quat, b: Quat, ka: Quat, kb: Quat)
    requires IsConjugate(ka, a) && IsConjugate(kb, b)
    ensures IsConjugate(Multiply(kb, ka), Multiply(a, b))
  {
    ConjugateW(a.w, a.x, a.y, a.z, b.w, b.x, b.y, b.z, ka.w, ka.x, ka.y, ka.z, kb.w, kb.x, kb.y, kb.z);
    ConjugateX(a.w, a.x, a.y, a.z, b.w, b.x, b.y, b.z, ka.w, ka.x, ka.y, ka.z, kb.w, kb.x, kb.y, kb.z);
    ConjugateX(a.w, a.y, a.z, a.x, b.w, b.y, b.z, b.x, ka.w, ka.y, ka.z, ka.x, kb.w, kb.y, kb.z, kb.x);
    ConjugateX(a.w, a.z, a.x, a.y, b.w, b.z, b.x, b.y, ka.w, ka.z, ka.x, ka.y, kb.w, kb.z, kb.x, kb.y);
  }

  lemma ConjugateProduct(a: Quat, b: Quat)
    ensures Conjugate(Multiply(a, b)) == Multiply(Conjugate(b), Conjugate(a))
  {
    ConjugateAt(a, b, Conjugate(a), Conjugate(b));
  }

  // ---- Rotation ----

  lemma SandwichW(qw: real, qx: real, qy: real, qz: real, vx: real, vy: real, vz: real,
                  pw: real, px: real, py: real, pz: real)
    requires pw == -qx * vx - qy * vy - qz * vz && px == qw * vx + qy * vz - qz * vy
    requires py == qw * vy - qx * vz + qz * vx && pz == qw * vz + qx * vy - qy * vx
    ensures pw * qw + px * qx + py * qy + pz * qz == 0.0
  {
  }

  lemma SandwichX(qw: real, qx: real, qy: real, qz: real, vx: real, vy: real, vz: real,
                  pw: real, px: real, py: real, pz: real, hx: real, hy: real, hz: real)
    requires pw == -qx * vx - qy * vy - qz * vz && px == qw * vx + qy * vz - qz * vy
    requires py == qw * vy - qx * vz + qz * vx && pz == qw * vz + qx * vy - qy * vx
    requires hx == qw * qw + qx * qx - qy * qy - qz * qz
    requires hy == 2.0 * (qx * qy - qw * qz) && hz == 2.0 * (qx * qz + qw * qy)
    ensures px * qw - pw * qx - py * qz + pz * qy == hx * vx + hy * vy + hz * vz
  {
  }

  /** That a quaternion is the product of another and a vector. */
  ghost predicate IsVectorProduct(p: Quat, q: Quat, v: Vector) {
    && p.w == -q.x * v.x - q.y * v.y - q.z * v.z
    && p.x == q.w * v.x + q.y * v.z - q.z * v.y
    && p.y == q.w * v.y - q.x * v.z + q.z * v.x
    && p.z == q.w * v.z + q.x * v.y - q.y * v.x
  }

  ghost predicate IsHomogeneous(h: Matrix, q: Quat) {
    && h.xx == q.w * q.w + q.x * q.x - q.y * q.y - q.z * q.z
    && h.xy == 2.0 * (q.x * q.y - q.w * q.z) && h.xz == 2.0 * (q.x * q.z + q.w * q.y)
    && h.yx == 2.0 * (q.x * q.y + q.w * q.z)
    && h.yy == q.w * q.w - q.x * q.x + q.y * q.y - q.z * q.z
    && h.yz == 2.0 * (q.y * q.z - q.w * q.x)
    && h.zx == 2.0 * (q.x * q.z - q.w * q.y) && h.zy == 2.0 * (q.y * q.z + q.w * q.x)
    && h.zz == q.w * q.w - q.x * q.x - q.y * q.y + q.z * q.z
  }

  lemma ByConjugateW(pw: real, px: real, py: real, pz: real, qw: real, qx: real, qy: real, qz: real,
                     kw: real, kx: real, ky: real, kz: real)
    requires kw == qw && kx == -qx && ky == -qy && kz == -qz
    ensures pw * kw - px * kx - py * ky - pz * kz == pw * qw + px * qx + py * qy + pz * qz
  {
  }

  lemma ByConjugateX(pw: real, px: real, py: real, pz: real, qw: real, qx: real, qy: real, qz: real,
                     kw: real, kx: real, ky: real, kz: real)
    requires kw == qw && kx == -qx && ky == -qy && kz == -qz
    ensures pw * kx + px * kw + py * kz - pz * ky == px * qw - pw * qx - py * qz + pz * qy
  {
  }

  lemma ByConjugate(p: Quat, q: Quat, k: Quat)
    requires IsConjugate(k, q)
    ensures Multiply(p, k).w == p.w * q.w + p.x * q.x + p.y * q.y + p.z * q.z
    ensures Multiply(p, k).x == p.x * q.w - p.w * q.x - p.y * q.z + p.z * q.y
    ensures Multiply(p, k).y == p.y * q.w - p.w * q.y - p.z * q.x + p.x * q.z
    ensures Multiply(p, k).z == p.z * q.w - p.w * q.z - p.x * q.y + p.y * q.x
  {
    ByConjugateW(p.w, p.x, p.y, p.z, q.w, q.x, q.y, q.z, k.w, k.x, k.y, k.z);
    ByConjugateX(p.w, p.x, p.y, p.z, q.w, q.x, q.y, q.z, k.w, k.x, k.y, k.z);
    ByConjugateX(p.w, p.y, p.z, p.x, q.w, q.y, q.z, q.x, k.w, k.y, k.z, k.x);
    ByConjugateX(p.w, p.z, p.x, p.y, q.w, q.z, q.x, q.y, k.w, k.z, k.x, k.y);
  }

  lemma SandwichAtW(q: Quat, v: Vector, p: Quat)
    requires IsVectorProduct(p, q, v)
    ensures p.w * q.w + p.x * q.x + p.y * q.y + p.z * q.z == 0.0
  {
    SandwichW(q.w, q.x, q.y, q.z, v.x, v.y, v.z, p.w, p.x, p.y, p.z);
  }

  lemma SandwichAtX(q: Quat, v: Vector, p: Quat, h: Matrix)
    requires IsVectorProduct(p, q, v) && IsHomogeneous(h, q)
    ensures p.x * q.w - p.w * q.x - p.y * q.z + p.z * q.y == MatrixMultiplyVector(h, v).x
  {
    SandwichX(q.w, q.x, q.y, q.z, v.x, v.y, v.z, p.w, p.x, p.y, p.z, h.xx, h.xy, h.xz);
  }

  lemma SandwichAtY(q: Quat, v: Vector, p: Quat, h: Matrix)
    requires IsVectorProduct(p, q, v) && IsHomogeneous(h, q)
    ensures p.y * q.w - p.w * q.y - p.z * q.x + p.x * q.z == MatrixMultiplyVector(h, v).y
  {
    SandwichX(q.w, q.y, q.z, q.x, v.y, v.z, v.x, p.w, p.y, p.z, p.x, h.yy, h.yz, h.yx);
  }

  lemma SandwichAtZ(q: Quat, v: Vector, p: Quat, h: Matrix)
    requires IsVectorProduct(p, q, v) && IsHomogeneous(h, q)
    ensures p.z * q.w - p.w * q.z - p.x * q.y + p.y * q.x == MatrixMultiplyVector(h, v).z
  {
    SandwichX(q.w, q.z, q.x, q.y, v.z, v.x, v.y, p.w, p.z, p.x, p.y, h.zz, h.zx, h.zy);
  }

  lemma SandwichAt(q: Quat, v: Vector, p: Quat, k: Quat, h: Matrix)
    requires IsVectorProduct(p, q, v) && IsConjugate(k, q) && IsHomogeneous(h, q)
    ensures Multiply(p, k) == Pure(MatrixMultiplyVector(h, v))
  {
    ByConjugate(p, q, k);
    SandwichAtW(q, v, p);
    SandwichAtX(q, v, p, h);
    SandwichAtY(q, v, p, h);
    SandwichAtZ(q, v, p, h);
  }

  /** The matrix does to a vector what the quaternion does to it from both sides. */
  lemma SandwichIsHomogeneous(q: Quat, v: Vector)
    ensures Sandwich(q, v) == Pure(MatrixMultiplyVector(Homogeneous(q), v))
  {
    MultiplyVectorIsMultiply(q, v);
    SandwichAt(q, v, MultiplyVector(q, v), Conjugate(q), Homogeneous(q));
  }

  lemma SandwichProduct(a: Quat, b: Quat, v: Vector)
    ensures Sandwich(Multiply(a, b), v) == Multiply(Multiply(a, Sandwich(b, v)), Conjugate(a))
  {
    var p := Pure(v);
    ConjugateProduct(a, b);
    MultiplyAssociative(a, b, p);
    MultiplyAssociative(Multiply(a, Multiply(b, p)), Conjugate(b), Conjugate(a));
    MultiplyAssociative(a, Multiply(b, p), Conjugate(b));
  }

  lemma HomogeneousProduct(a: Quat, b: Quat, v: Vector)
    ensures MatrixMultiplyVector(Homogeneous(Multiply(a, b)), v)
         == MatrixMultiplyVector(Homogeneous(a), MatrixMultiplyVector(Homogeneous(b), v))
  {
    SandwichProduct(a, b, v);
    SandwichIsHomogeneous(Multiply(a, b), v);
    SandwichIsHomogeneous(b, v);
    SandwichIsHomogeneous(a, MatrixMultiplyVector(Homogeneous(b), v));
  }

  /** The rotation matrix is the one of degree two just for the unit quaternions. */
  lemma ToMatrixHomogeneousIff(q: Quat)
    ensures ToMatrix(q) == Homogeneous(q) <==> Unit(q)
  {
  }

  /** A matrix is known from what it does to the three axes. */
  lemma FromAxes(m: Matrix, n: Matrix)
    requires MatrixMultiplyVector(m, EX) == MatrixMultiplyVector(n, EX)
    requires MatrixMultiplyVector(m, EY) == MatrixMultiplyVector(n, EY)
    requires MatrixMultiplyVector(m, EZ) == MatrixMultiplyVector(n, EZ)
    ensures m == n
  {
  }

  lemma AxisColumns(m: Matrix)
    ensures MatrixMultiplyVector(m, EX) == ColumnX(m)
    ensures MatrixMultiplyVector(m, EY) == ColumnY(m)
    ensures MatrixMultiplyVector(m, EZ) == ColumnZ(m)
  {
  }

  lemma HomogeneousMultiplicative(a: Quat, b: Quat)
    ensures Homogeneous(Multiply(a, b)) == MatrixMultiply(Homogeneous(a), Homogeneous(b))
  {
    var n := Homogeneous(b);
    HomogeneousProduct(a, b, EX);
    HomogeneousProduct(a, b, EY);
    HomogeneousProduct(a, b, EZ);
    AxisColumns(n);
    AxisColumns(MatrixMultiply(Homogeneous(a), n));
    FromAxes(Homogeneous(Multiply(a, b)), MatrixMultiply(Homogeneous(a), n));
  }

  /** For unit quaternions the matrix of a product is the product of the matrices. */
  lemma ToMatrixMultiplicative(a: Quat, b: Quat)
    requires Unit(a) && Unit(b)
    ensures Unit(Multiply(a, b))
    ensures ToMatrix(Multiply(a, b)) == MatrixMultiply(ToMatrix(a), ToMatrix(b))
  {
    MultiplyNorm(a, b);
    ToMatrixHomogeneousIff(a);
    ToMatrixHomogeneousIff(b);
    ToMatrixHomogeneousIff(Multiply(a, b));
    HomogeneousMultiplicative(a, b);
  }

  /** For a unit quaternion the matrix rotates a vector as the quaternion does. */
  lemma ToMatrixRotates(q: Quat, v: Vector)
    requires Unit(q)
    ensures Sandwich(q, v) == Pure(MatrixMultiplyVector(ToMatrix(q), v))
  {
    ToMatrixHomogeneousIff(q);
    SandwichIsHomogeneous(q, v);
  }

  /** That the products in two quaternions' matrices are those of a matrix and its transpose. */
  ghost predicate TransposedParts(k: Quat, q: Quat) {
    && k.w * k.w == q.w * q.w && k.x * k.x == q.x * q.x && k.y * k.y == q.y * q.y && k.z * k.z == q.z * q.z
    && k.w * k.x == -(q.w * q.x) && k.w * k.y == -(q.w * q.y) && k.w * k.z == -(q.w * q.z)
    && k.x * k.y == q.x * q.y && k.x * k.z == q.x * q.z && k.y * k.z == q.y * q.z
  }

  lemma ConjugateParts(q: Quat, k: Quat)
    requires IsConjugate(k, q)
    ensures TransposedParts(k, q)
  {
    OppositeFactor(q.w, q.x, k.x);
    OppositeFactor(q.w, q.y, k.y);
    OppositeFactor(q.w, q.z, k.z);
    OppositeParts(q, q, k, k);
  }

  lemma TransposesAt(q: Quat, k: Quat)
    requires TransposedParts(k, q)
    ensures ToMatrix(k) == Transpose(ToMatrix(q)) && NormSquared(k) == NormSquared(q)
  {
  }

  lemma ConjugateTransposes(q: Quat)
    ensures ToMatrix(Conjugate(q)) == Transpose(ToMatrix(q)) && NormSquared(Conjugate(q)) == NormSquared(q)
  {
    ConjugateParts(q, Conjugate(q));
    TransposesAt(q, Conjugate(q));
  }

  lemma MultiplyConjugate(q: Quat)
    ensures Multiply(q, Conjugate(q)) == Quat(NormSquared(q), 0.0, 0.0, 0.0)
  {
    ByConjugate(q, q, Conjugate(q));
  }

  lemma IdentityMatrix()
    ensures ToMatrix(IDENTITY) == EYE
  {
  }

  lemma InverseMatrices(a: Quat, b: Quat)
    requires Unit(a) && Unit(b) && Multiply(a, b) == IDENTITY
    ensures MatrixMultiply(ToMatrix(a), ToMatrix(b)) == EYE
  {
    ToMatrixMultiplicative(a, b);
    IdentityMatrix();
  }

  lemma ConjugateInverts(q: Quat)
    requires Unit(q)
    ensures Unit(Conjugate(q)) && Multiply(q, Conjugate(q)) == IDENTITY == Multiply(Conjugate(q), q)
  {
    ConjugateTransposes(q);
    MultiplyConjugate(q);
    MultiplyConjugate(Conjugate(q));
    assert Conjugate(Conjugate(q)) == q;
  }

  /** For a unit quaternion the matrix is orthonormal: its transpose is its inverse, on either side. */
  lemma ToMatrixOrthonormal(q: Quat)
    requires Unit(q)
    ensures MatrixMultiply(ToMatrix(q), Transpose(ToMatrix(q))) == EYE
    ensures MatrixMultiply(Transpose(ToMatrix(q)), ToMatrix(q)) == EYE
  {
    ConjugateTransposes(q);
    ConjugateInverts(q);
    InverseMatrices(q, Conjugate(q));
    InverseMatrices(Conjugate(q), q);
  }

  /** A rotation by a unit quaternion keeps lengths. */
  lemma RotationKeepsLength(q: Quat, v: Vector)
    requires Unit(q)
    ensures LengthSquared(MatrixMultiplyVector(ToMatrix(q), v)) == LengthSquared(v)
  {
    ToMatrixRotates(q, v);
    ConjugateTransposes(q);
    MultiplyNorm(q, Pure(v));
    MultiplyNorm(Multiply(q, Pure(v)), Conjugate(q));
  }

  // ---- What the fusion algorithm takes from them ----

  datatype Convention = Nwu | Enu | Ned

  function HalfGravity(convention: Convention, q: Quat): Vector {
    match convention
    case Ned =>
      Vector(q.w * q.y - q.x * q.z, -1.0 * (q.y * q.z + q.w * q.x), 0.5 - q.w * q.w - q.z * q.z)
    case _ =>
      Vector(q.x * q.z - q.w * q.y, q.y * q.z + q.w * q.x, q.w * q.w - 0.5 + q.z * q.z)
  }

  function HalfMagnetic(convention: Convention, q: Quat): Vector {
    match convention
    case Nwu =>
      Vector(q.x * q.y + q.w * q.z, q.w * q.w - 0.5 + q.y * q.y, q.y * q.z - q.w * q.x)
    case Enu =>
      Vector(0.5 - q.w * q.w - q.x * q.x, q.w * q.z - q.x * q.y, -1.0 * (q.x * q.z + q.w * q.y))
    case Ned =>
      Vector(-1.0 * (q.x * q.y + q.w * q.z), 0.5 - q.w * q.w - q.y * q.y, q.w * q.x - q.y * q.z)
  }

  /** Up in the earth's frame, which is against its third axis when that points down. */
  function Up(convention: Convention): Vector { if convention.Ned? then Vector(0.0, 0.0, -1.0) else EZ }

  /** West in the earth's frame. */
  function West(convention: Convention): Vector {
    match convention
    case Nwu => EY
    case Enu => Vector(-1.0, 0.0, 0.0)
    case Ned => Vector(0.0, -1.0, 0.0)
  }

  /** The direction that a vector of the earth's frame has for the sensor, at half its length. */
  function HalfSeen(q: Quat, v: Vector): Vector { Scale(MatrixMultiplyVector(Transpose(ToMatrix(q)), v), 0.5) }

  lemma HalfSeenAxes(q: Quat)
    ensures HalfSeen(q, EZ) == HalfGravity(Nwu, q) == HalfGravity(Enu, q)
    ensures HalfSeen(q, EY) == HalfMagnetic(Nwu, q)
  {
  }

  lemma HalfSeenEnu(q: Quat)
    ensures HalfSeen(q, Vector(-1.0, 0.0, 0.0)) == HalfMagnetic(Enu, q)
  {
  }

  lemma HalfSeenNed(q: Quat)
    ensures HalfSeen(q, Vector(0.0, 0.0, -1.0)) == HalfGravity(Ned, q)
    ensures HalfSeen(q, Vector(0.0, -1.0, 0.0)) == HalfMagnetic(Ned, q)
  {
  }

  /** Both directions are half the earth's, seen from the sensor: the inverse rotation takes them there. */
  lemma HalfDirections(convention: Convention, q: Quat)
    ensures HalfGravity(convention, q) == HalfSeen(q, Up(convention))
    ensures HalfMagnetic(convention, q) == HalfSeen(q, West(convention))
  {
    match convention
    case Nwu => HalfSeenAxes(q);
    case Enu => HalfSeenAxes(q); HalfSeenEnu(q);
    case Ned => HalfSeenNed(q);
  }

  /** For a unit quaternion both have half the length of a unit vector. */
  lemma HalfDirectionsLength(convention: Convention, q: Quat)
    requires Unit(q)
    ensures LengthSquared(HalfGravity(convention, q)) == 0.25
    ensures LengthSquared(HalfMagnetic(convention, q)) == 0.25
  {
    HalfDirections(convention, q);
    UnitDirections(convention);
    HalfLength(q, Up(convention));
    HalfLength(q, West(convention));
  }

  lemma UnitDirections(convention: Convention)
    ensures LengthSquared(Up(convention)) == 1.0 && LengthSquared(West(convention)) == 1.0
  {
  }

  lemma HalfLength(q: Quat, u: Vector)
    requires Unit(q) && LengthSquared(u) == 1.0
    ensures LengthSquared(HalfSeen(q, u)) == 0.25
  {
    ConjugateTransposes(q);
    RotationKeepsLength(Conjugate(q), u);
    ScaledLength(MatrixMultiplyVector(Transpose(ToMatrix(q)), u));
  }

  lemma ScaledLength(v: Vector)
    ensures LengthSquared(Scale(v, 0.5)) == 0.25 * LengthSquared(v)
  {
  }

  /** One step of integration before it is normalised. */
  function Integrate(q: Quat, halfAngle: Vector): Quat { Add(q, MultiplyVector(q, halfAngle)) }

  lemma IntegrateAt(q: Quat, v: Vector, p: Quat)
    requires IsVectorProduct(p, q, v)
    ensures NormSquared(Add(q, p)) == NormSquared(q) * (1.0 + LengthSquared(v))
  {
    var i := Add(q, p);
    FourSquares(q.w, q.x, q.y, q.z, 1.0, v.x, v.y, v.z, i.w, i.x, i.y, i.z);
  }

  /** A step of integration lengthens the quaternion by a factor that does not depend on it; so it can be normalised. */
  lemma IntegrateNorm(q: Quat, halfAngle: Vector)
    ensures NormSquared(Integrate(q, halfAngle)) == NormSquared(q) * (1.0 + LengthSquared(halfAngle))
  {
    IntegrateAt(q, halfAngle, MultiplyVector(q, halfAngle));
  }
}
