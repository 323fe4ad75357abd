/** FVector and FLinearColor as exact real triples / quadruples. */
module Vectors {
  datatype Vec3 = Vec3(x: real, y: real, z: real)
  {
    function Add(o: Vec3): Vec3 { Vec3(x + o.x, y + o.y, z + o.z) }
    function Sub(o: Vec3): Vec3 { Vec3(x - o.x, y - o.y, z - o.z) }
    function Scale(k: real): Vec3 { Vec3(x * k, y * k, z * k) }
    /** Component-wise product (FVector operator*). */
    function Mul(o: Vec3): Vec3 { Vec3(x * o.x, y * o.y, z * o.z) }
    function Dot(o: Vec3): real { x * o.x + y * o.y + z * o.z }
    function SizeSquared(): real { x * x + y * y + z * z }
    function SizeSquared2D(): real { x * x + y * y }
  }

  const Zero := Vec3(0.0, 0.0, 0.0)

  function DistSquared(a: Vec3, b: Vec3): real { a.Sub(b).SizeSquared() }

  datatype LinearColor = LinearColor(r: real, g: real, b: real, a: real)
}
