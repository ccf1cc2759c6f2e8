/**
 * The two settings of `thinga/config.py` that the modelled rules read. Both
 * are read from the environment with `int(...)`, so any integer is possible.
 */
module Config {

  datatype Config = Config(
    sessionExpireDays: int,  // SESSION_EXPIRE_DAYS
    maxImageSizeBytes: int)  // MAX_IMAGE_SIZE_BYTES
}
