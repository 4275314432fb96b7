/** The exceptions the build script raises, one constructor per `raise`
    (or per Python error a statement of the script provokes). */
module BuildErrors {

  datatype BuildError =
    /** `pkg_name, version = pkg.split("==")` did not get exactly two parts (ValueError). */
    | UnpackError(line: string)
    /** `blender-extension` is not among the optional dependencies (ValueError). */
    | MissingExtensionGroup
    /** `project` is not a table, so `.get` does not exist on it (AttributeError). */
    | ProjectNotTable
    /** `optional-dependencies` is a scalar, so `in` cannot search it (TypeError). */
    | DependenciesNotIterable
    /** `optional-dependencies` is a string or a list holding `blender-extension`,
        so it accepts `in` but not item assignment (TypeError). */
    | DependenciesNotTable
    /** The source directory handed to `copy_source_code` is missing (FileNotFoundError). */
    | SourceMissing(path: seq<string>)
    /** An extra wheels directory is missing (FileNotFoundError). */
    | ExtraDirMissing(path: seq<string>)
    /** An extra wheels directory holds a different number of wheels (ValueError). */
    | WheelCountMismatch(path: seq<string>, count: nat, expected: nat)
    /** `compress_wheels` found no wheels directory (FileNotFoundError). */
    | WheelsDirMissing
    /** `--only-compress-wheels` together with extra wheels (ValueError). */
    | CompressWithExtraWheels
    /** `pyproject.toml` cannot be opened or parsed. */
    | PyprojectUnreadable
    /** `blender_manifest.toml` cannot be opened or parsed. */
    | ManifestUnreadable
    /** A file is written into a directory that does not exist (FileNotFoundError). */
    | NoSuchDirectory(path: seq<string>)
    /** `bpy` cannot be imported, so there is no Blender binary (ImportError). */
    | BlenderUnavailable
    /** `blender --command extension build` exited non-zero (CalledProcessError). */
    | AssemblerFailed
}
