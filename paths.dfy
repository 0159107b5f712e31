/**
 * Unix path joining as Rust's `Path::join` does it: an absolute second
 * component replaces the base; otherwise a separator is inserted unless the
 * base is empty or already ends with one.
 */
module Paths {

  const Separator: char := '/'

  predicate IsAbsolute(p: string) { |p| > 0 && p[0] == Separator }

  function Join(base: string, part: string): (r: string)
    ensures IsAbsolute(part) ==> r == part
    ensures !IsAbsolute(part) ==> |r| >= |part| && r[|r| - |part|..] == part
    ensures !IsAbsolute(part) && (base == [] || base[|base| - 1] == Separator) ==> r == base + part
  {
    if IsAbsolute(part) then part
    else if base == [] || base[|base| - 1] == Separator then base + part
    else base + [Separator] + part
  }
}
